/** ptable.lock itself: the spin lock of kernel/spinlock.c under the scheduler model, one memory access a step. */
module SchedulerLock {
  import opened ProcTable
  import opened Scheduler
  import opened SchedulerInv
  import opened SchedulerSteps
  import opened SchedulerRuns

  const NOCPU := -1

  /** What holding() is called for. */
  datatype Why = ForAcquire(a: Action) | ForRelease | ForSched

  /** Where a CPU is inside acquire, release or sched's test, if it is. */
  datatype Phase =
    | Plain
    | ToRelease                        // release called
    | Testing(why: Why, word: bool)    // holding() has read lk->locked
    | Spinning(a: Action)              // acquire, before its next xchg
    | Taken(a: Action)                 // acquire, the xchg found the lock free
    | Clearing                         // release, before lk->cpu = 0
    | Cleared                          // release, before its xchg

  /** The scheduler state with lk->locked, lk->cpu and the CPUs' phases. */
  datatype Lsys = Lsys(sys: Sys, word: bool, holder: int, ph: seq<Phase>, panicked: bool)

  datatype Access =
    | Begin(a: Action)    // acquire for an action: holding() reads lk->locked
    | Read                // release or sched: holding() reads lk->locked
    | Test                // holding() compares lk->cpu, and the caller acts on it
    | Xchg | Store        // acquire
    | Clear | Free        // release
    | Do(a: Action)       // a step of the scheduler model that takes no lock

  // ----- steps -----

  /** The actions that start with acquire. */
  predicate Acquires(a: Action) {
    a.SchedLock? || a.Acquire? || a.Interrupt?
  }

  /** What such an action asks for, but for the lock. */
  predicate StartOk(s: Sys, c: nat, a: Action)
    requires c < |s.pcs|
  {
    Cur(s.pcs[c]) < |s.procs| &&
    match a
    case SchedLock => s.pcs[c].Loop?
    case Acquire(op) => s.pcs[c].Run? && MayStart(s, s.pcs[c].p, op)
    case Interrupt(ch) => s.pcs[c].Loop? && ch.Address?
    case _ => false
  }

  /** What such an action does once it has the lock; an interrupt handler's wakeup is the whole critical section. */
  function Entered(s: Sys, c: nat, a: Action): Sys
    requires c < |s.pcs| && StartOk(s, c, a)
  {
    match a
    case SchedLock => Goto(s, c, Scan(0))
    case Acquire(op) => Goto(s, c, Locked(s.pcs[c].p, op))
    case Interrupt(ch) => s.(procs := Wake(s.procs, ch))
  }

  lemma {:induction false} EnteredIsAfter(s: Sys, c: nat, a: Action)
    requires c < |s.pcs| && StartOk(s, c, a) && LockFree(s)
    ensures Can(s, c, a) && After(s, c, a) == Entered(s, c, a)
  {
  }

  predicate LCan(x: Lsys, c: nat, m: Access) {
    && !x.panicked && c < |x.sys.pcs| == |x.ph|
    && match m
       case Begin(a) => x.ph[c].Plain? && StartOk(x.sys, c, a)
       case Read => x.ph[c].ToRelease? || (x.ph[c].Plain? && x.sys.pcs[c].Switch?)
       case Test => x.ph[c].Testing?
       case Xchg => x.ph[c].Spinning?
       case Store => x.ph[c].Taken? && StartOk(x.sys, c, x.ph[c].a)
       case Clear => x.ph[c].Clearing?
       case Free => x.ph[c].Cleared?
       case Do(a) => x.ph[c].Plain? && !Acquires(a) && !a.SwitchAway? && Can(x.sys, c, a)
  }

  function To(x: Lsys, c: nat, p: Phase): Lsys
    requires c < |x.ph|
  {
    x.(ph := x.ph[c := p])
  }

  /** holding() has seen the word; what its caller makes of the answer. */
  function Tested(x: Lsys, c: nat, why: Why, word: bool): Lsys
    requires c < |x.sys.pcs| == |x.ph|
  {
    var held := word && x.holder == c;
    match why
    case ForAcquire(a) => if held then x.(panicked := true) else To(x, c, Spinning(a))
    case ForRelease => if held then To(x, c, Clearing) else x.(panicked := true)
    case ForSched =>
      if held && Can(x.sys, c, SwitchAway) && x.sys.procs[x.sys.pcs[c].p].state != RUNNING
      then To(x, c, Plain).(sys := After(x.sys, c, SwitchAway))
      else x.(panicked := true)
  }

  function LAfter(x: Lsys, c: nat, m: Access): Lsys
    requires LCan(x, c, m)
  {
    match m
    case Begin(a) => To(x, c, Testing(ForAcquire(a), x.word))
    case Read => To(x, c, Testing(if x.ph[c].ToRelease? then ForRelease else ForSched, x.word))
    case Test => Tested(x, c, x.ph[c].why, x.ph[c].word)
    case Xchg => if x.word then x else To(x, c, Taken(x.ph[c].a)).(word := true)
    case Store =>
      var a := x.ph[c].a;
      To(x, c, if a.Interrupt? then ToRelease else Plain).(holder := c, sys := Entered(x.sys, c, a))
    case Clear => To(x, c, Cleared).(holder := NOCPU)
    case Free => To(x, c, Plain).(word := false)
    case Do(a) =>
      var t := After(x.sys, c, a);
      To(x, c, if Holds(x.sys.pcs[c]) && c < |t.pcs| && !Holds(t.pcs[c]) then ToRelease else Plain).(sys := t)
  }

  // ----- who has the lock -----

  /** From the xchg that takes the lock to the one that frees it. */
  predicate Has(pc: Pc, p: Phase) {
    Holds(pc) || p.Taken? || p.ToRelease? || (p.Testing? && p.why.ForRelease?) || p.Clearing? || p.Cleared?
  }

  /** Meanwhile lk->cpu is this CPU. */
  predicate Recorded(pc: Pc, p: Phase) {
    Has(pc, p) && !p.Taken? && !p.Cleared?
  }

  /** A phase fits where its CPU is. */
  predicate Fits(s: Sys, c: nat, p: Phase)
    requires c < |s.pcs|
  {
    match p
    case Plain => true
    case ToRelease => !Holds(s.pcs[c])
    case Testing(why, word) =>
      (match why
       case ForAcquire(a) => StartOk(s, c, a)
       case ForRelease => word && !Holds(s.pcs[c])
       case ForSched => word && s.pcs[c].Switch?)
    case Spinning(a) => StartOk(s, c, a)
    case Taken(a) => StartOk(s, c, a)
    case Clearing => !Holds(s.pcs[c])
    case Cleared => !Holds(s.pcs[c])
  }

  ghost predicate LInv(x: Lsys) {
    && Inv(x.sys) && |x.ph| == |x.sys.pcs| && !x.panicked
    && (forall c :: 0 <= c < |x.ph| ==> Fits(x.sys, c, x.ph[c]))
    && (forall c, d :: 0 <= c < |x.ph| && 0 <= d < |x.ph| && c != d ==>
          !(Has(x.sys.pcs[c], x.ph[c]) && Has(x.sys.pcs[d], x.ph[d])))
    && (forall c :: 0 <= c < |x.ph| && Has(x.sys.pcs[c], x.ph[c]) ==> x.word)
    && (x.word ==> exists c :: 0 <= c < |x.ph| && Has(x.sys.pcs[c], x.ph[c]))
    && (forall c :: 0 <= c < |x.ph| ==> (x.holder == c <==> Recorded(x.sys.pcs[c], x.ph[c])))
  }

  /** A step of one CPU leaves the others their phases, their place and what they have started. */
  predicate OthersStay(x: Lsys, y: Lsys, c: nat) {
    && |y.ph| == |x.ph| == |x.sys.pcs| == |y.sys.pcs| && c < |x.ph|
    && forall d :: 0 <= d < |x.ph| && d != c ==>
         y.ph[d] == x.ph[d] && y.sys.pcs[d] == x.sys.pcs[d] && (Fits(x.sys, d, x.ph[d]) ==> Fits(y.sys, d, x.ph[d]))
  }

  /** CPU c goes from one place and phase to another. */
  lemma {:induction false} Moves(x: Lsys, y: Lsys, c: nat)
    requires LInv(x) && OthersStay(x, y, c) && Inv(y.sys) && !y.panicked && Fits(y.sys, c, y.ph[c])
    requires var was, now := Has(x.sys.pcs[c], x.ph[c]), Has(y.sys.pcs[c], y.ph[c]);
             && (if was == now then y.word == x.word else y.word == now && x.word == was)
    requires var was, now := Recorded(x.sys.pcs[c], x.ph[c]), Recorded(y.sys.pcs[c], y.ph[c]);
             if was == now then y.holder == x.holder else y.holder == if now then c else NOCPU
    ensures LInv(y)
  {
    hide Inv, Fits;
    var was, now := Has(x.sys.pcs[c], x.ph[c]), Has(y.sys.pcs[c], y.ph[c]);
    if now && !was {
      assert forall d :: 0 <= d < |x.ph| ==> !Has(x.sys.pcs[d], x.ph[d]);
    }
    if y.word {
      if was == now && !now {
        var d :| 0 <= d < |x.ph| && Has(x.sys.pcs[d], x.ph[d]);
        assert Has(y.sys.pcs[d], y.ph[d]);
      } else {
        assert Has(y.sys.pcs[c], y.ph[c]);
      }
    }
    forall d | 0 <= d < |y.ph| && d != c
      ensures y.holder == d <==> Recorded(y.sys.pcs[d], y.ph[d])
    {
    }
    forall d | 0 <= d < |y.ph| ensures Fits(y.sys, d, y.ph[d]) {
      assert Fits(x.sys, d, x.ph[d]);
    }
  }

  // ----- every step keeps it -----

  /** What another CPU has started stays startable: fork's own pointer of a process changes on its own CPU only. */
  lemma {:induction false} NpKept(s: Sys, c: nat, a: Action, p: nat)
    requires Inv(s) && c < |s.pcs| && Can(s, c, a) && p < |s.procs| && Cur(s.pcs[c]) != p
    ensures |After(s, c, a).procs| == |s.procs| && After(s, c, a).procs[p].np == s.procs[p].np
  {
    hide Inv, Adopt, FirstUnused, FirstZombie, FirstPid;
    InvPc(s, c);
    if a.Perform? && s.pcs[c].op.ExitAdopt? {
      Adopted(s.procs, s.pcs[c].p, s.init, |s.procs|, p);
    }
  }

  lemma {:induction false} Elsewhere(s: Sys, c: nat, a: Action)
    requires c < |s.pcs| && Can(s, c, a)
    ensures var t := After(s, c, a);
            && |t.pcs| == |s.pcs| && |t.procs| == |s.procs| && t.init == s.init
            && forall d :: 0 <= d < |s.pcs| && d != c ==> t.pcs[d] == s.pcs[d]
  {
    hide Adopt, Wake, KillFirst, FirstUnused, FirstZombie;
  }

  lemma {:induction false} OthersFit(s: Sys, c: nat, a: Action, d: nat, p: Phase)
    requires Inv(s) && c < |s.pcs| && Can(s, c, a) && d < |s.pcs| && d != c && Fits(s, d, p)
    ensures var t := After(s, c, a); |t.pcs| == |s.pcs| && Fits(t, d, p)
  {
    hide Inv, After, Can;
    Elsewhere(s, c, a);
    if s.pcs[d].Run? {
      InvPc(s, d);
      CursApart(s, c, d);
      NpKept(s, c, a, s.pcs[d].p);
    }
  }

  lemma {:induction false} CursApart(s: Sys, c: nat, d: nat)
    requires Inv(s) && c < |s.pcs| && d < |s.pcs| && c != d && Cur(s.pcs[d]) != NOBODY
    ensures Cur(s.pcs[c]) != Cur(s.pcs[d])
  {
    InvParts(s);
    hide Inv;
    assert Apart(s.pcs[d], s.pcs[c]);
  }

  lemma {:induction false} OthersStayAfter(x: Lsys, y: Lsys, c: nat, a: Action)
    requires Inv(x.sys) && |x.ph| == |x.sys.pcs| && c < |x.ph| && Can(x.sys, c, a)
    requires y.sys == After(x.sys, c, a) && |y.ph| == |x.ph| && forall d :: 0 <= d < |x.ph| && d != c ==>
      y.ph[d] == x.ph[d]
    ensures OthersStay(x, y, c) && Inv(y.sys)
  {
    hide Inv, After, Can, Fits;
    StepKeepsInv(x.sys, c, a);
    Elsewhere(x.sys, c, a);
    forall d | 0 <= d < |x.ph| && d != c && Fits(x.sys, d, x.ph[d]) ensures Fits(y.sys, d, x.ph[d]) {
      OthersFit(x.sys, c, a, d, x.ph[d]);
    }
  }

  /** The steps that leave the scheduler's own state alone. */
  lemma {:induction false} QuietKeeps(x: Lsys, c: nat, m: Access)
    requires LInv(x) && LCan(x, c, m) && (m.Begin? || m.Read? || m.Xchg? || m.Clear? || m.Free?)
    ensures LInv(LAfter(x, c, m))
  {
    hide Inv, Can, After;
    var y := LAfter(x, c, m);
    assert Fits(x.sys, c, x.ph[c]);
    assert OthersStay(x, y, c);
    Moves(x, y, c);
  }

  /** acquire gets the lock only when no CPU holds it. */
  lemma {:induction false} StoreKeeps(x: Lsys, c: nat)
    requires LInv(x) && LCan(x, c, Store)
    ensures LInv(LAfter(x, c, Store)) && Can(x.sys, c, x.ph[c].a)
    ensures LAfter(x, c, Store).sys == After(x.sys, c, x.ph[c].a)
  {
    hide Inv, Can, After;
    var a, y := x.ph[c].a, LAfter(x, c, Store);
    assert Has(x.sys.pcs[c], x.ph[c]);
    forall d | 0 <= d < |x.sys.pcs| ensures !Holds(x.sys.pcs[d]) {
      assert d != c ==> !Has(x.sys.pcs[d], x.ph[d]);
    }
    EnteredIsAfter(x.sys, c, a);
    OthersStayAfter(x, y, c, a);
    Moves(x, y, c);
  }

  /** The tests of acquire, release and sched pass. */
  lemma {:induction false} TestKeeps(x: Lsys, c: nat)
    requires LInv(x) && LCan(x, c, Test)
    ensures LInv(LAfter(x, c, Test))
    ensures x.ph[c].why.ForSched? ==> Can(x.sys, c, SwitchAway) && LAfter(x, c, Test).sys == After(x.sys, c, SwitchAway)
    ensures !x.ph[c].why.ForSched? ==> LAfter(x, c, Test).sys == x.sys
  {
    hide Inv;
    InvPc(x.sys, c);
    assert Fits(x.sys, c, x.ph[c]) && (x.holder == c <==> Recorded(x.sys.pcs[c], x.ph[c]));
    var y := LAfter(x, c, Test);
    if x.ph[c].why.ForSched? {
      OthersStayAfter(x, y, c, SwitchAway);
    } else {
      assert OthersStay(x, y, c);
    }
    Moves(x, y, c);
  }

  /** A step that takes no lock gives none, and releases what it held. */
  lemma {:induction false} DoMoves(s: Sys, c: nat, a: Action)
    requires c < |s.pcs| && Can(s, c, a) && !Acquires(a) && !Holds(s.pcs[c])
    ensures c < |After(s, c, a).pcs| && !Holds(After(s, c, a).pcs[c])
  {
    hide Adopt, Wake, KillFirst, FirstUnused, FirstZombie;
  }

  lemma {:induction false} DoKeeps(x: Lsys, c: nat, a: Action)
    requires LInv(x) && LCan(x, c, Do(a))
    ensures LInv(LAfter(x, c, Do(a))) && LAfter(x, c, Do(a)).sys == After(x.sys, c, a)
  {
    hide Inv, Can, After;
    var y := LAfter(x, c, Do(a));
    OthersStayAfter(x, y, c, a);
    if !Holds(x.sys.pcs[c]) { DoMoves(x.sys, c, a); }
    Moves(x, y, c);
  }

  /** The action of the scheduler model that a step carries out, if any. */
  function Carries(x: Lsys, c: nat, m: Access): seq<Action>
    requires LCan(x, c, m)
  {
    match m
    case Store => [x.ph[c].a]
    case Do(a) => [a]
    case Test => if x.ph[c].why.ForSched? then [SwitchAway] else []
    case _ => []
  }

  /** Every step keeps the invariant, and is a step of the scheduler model or none at all. */
  lemma {:induction false} LStepKeeps(x: Lsys, c: nat, m: Access)
    requires LInv(x) && LCan(x, c, m)
    ensures LInv(LAfter(x, c, m))
    ensures var acts, y := Carries(x, c, m), LAfter(x, c, m);
            if acts == [] then y.sys == x.sys else Can(x.sys, c, acts[0]) && y.sys == After(x.sys, c, acts[0])
  {
    match m
    case Store => StoreKeeps(x, c);
    case Test => TestKeeps(x, c);
    case Do(a) => DoKeeps(x, c, a);
    case _ => QuietKeeps(x, c, m);
  }

  // ----- runs -----

  datatype Lstep = Lstep(cpu: nat, access: Access)

  predicate LCanRun(x: Lsys, steps: seq<Lstep>)
    decreases |steps|
  {
    steps == [] ||
    (LCan(x, steps[0].cpu, steps[0].access) && LCanRun(LAfter(x, steps[0].cpu, steps[0].access), steps[1..]))
  }

  function LRunOf(x: Lsys, steps: seq<Lstep>): Lsys
    requires LCanRun(x, steps)
    decreases |steps|
  {
    if steps == [] then x else LRunOf(LAfter(x, steps[0].cpu, steps[0].access), steps[1..])
  }

  /** The lock is free and no CPU is in a lock operation. */
  function LBoot(slots: nat, cpus: nat): Lsys
    requires slots > 0
  {
    Lsys(Boot(slots, cpus), false, NOCPU, seq(cpus, _ => Plain), false)
  }

  lemma {:induction false} LBootOk(slots: nat, cpus: nat)
    requires slots > 0
    ensures LInv(LBoot(slots, cpus))
  {
    hide Inv;
    BootOk(slots, cpus);
  }

  /** The steps of the scheduler model in a run. */
  function Carried(x: Lsys, steps: seq<Lstep>): seq<Step>
    requires LCanRun(x, steps)
    decreases |steps|
  {
    if steps == [] then []
    else
      var c, m := steps[0].cpu, steps[0].access;
      var acts, rest := Carries(x, c, m), Carried(LAfter(x, c, m), steps[1..]);
      if acts == [] then rest else [Step(c, acts[0])] + rest
  }

  lemma {:induction false} LRunKeeps(x: Lsys, steps: seq<Lstep>)
    requires LInv(x) && LCanRun(x, steps)
    ensures LInv(LRunOf(x, steps))
    ensures CanRun(x.sys, Carried(x, steps)) && LRunOf(x, steps).sys == RunOf(x.sys, Carried(x, steps))
    decreases |steps|
  {
    if steps != [] {
      hide LInv, LCan, LAfter, Can, After, Carries;
      var c, m := steps[0].cpu, steps[0].access;
      var y, acts := LAfter(x, c, m), Carries(x, c, m);
      LStepKeeps(x, c, m);
      LRunKeeps(y, steps[1..]);
      if acts != [] {
        assert Carried(x, steps)[1..] == Carried(y, steps[1..]);
      }
    }
  }

  /** In every run on any number of CPUs: no holding() test of acquire, release or sched ever panics; the lock word is
      set exactly while one CPU is between taking and freeing the lock, that CPU alone holds ptable.lock, and lk->cpu
      names it from the store to the clearing; a CPU that has taken it can go on; and the run is one of the scheduler
      model, so all of its properties hold. */
  lemma {:induction false} LockIsExclusive(slots: nat, cpus: nat, steps: seq<Lstep>, x: Lsys)
    requires slots > 0 && LCanRun(LBoot(slots, cpus), steps) && x == LRunOf(LBoot(slots, cpus), steps)
    ensures !x.panicked && |x.ph| == |x.sys.pcs|
    ensures x.word <==> exists c :: 0 <= c < |x.ph| && Has(x.sys.pcs[c], x.ph[c])
    ensures forall c, d :: 0 <= c < |x.ph| && 0 <= d < |x.ph| && c != d ==>
      !(Has(x.sys.pcs[c], x.ph[c]) && Has(x.sys.pcs[d], x.ph[d]))
    ensures forall c :: 0 <= c < |x.ph| ==> (x.holder == c <==> Recorded(x.sys.pcs[c], x.ph[c]))
    ensures forall c :: 0 <= c < |x.ph| && Holds(x.sys.pcs[c]) ==> x.word && x.holder == c
    ensures forall c :: 0 <= c < |x.ph| && x.ph[c].Taken? ==> LCan(x, c, Store)
    ensures CanRun(Boot(slots, cpus), Carried(LBoot(slots, cpus), steps))
    ensures x.sys == RunOf(Boot(slots, cpus), Carried(LBoot(slots, cpus), steps))
  {
    hide Inv, LCanRun, LRunOf, Carried, CanRun, RunOf;
    LBootOk(slots, cpus);
    LRunKeeps(LBoot(slots, cpus), steps);
    forall c | 0 <= c < |x.ph| && Holds(x.sys.pcs[c]) ensures x.word && x.holder == c {
      assert Fits(x.sys, c, x.ph[c]);
      HoldersArePlain(x, c);
    }
  }

  lemma {:induction false} HoldersArePlain(x: Lsys, c: nat)
    requires c < |x.sys.pcs| == |x.ph| && Fits(x.sys, c, x.ph[c]) && Holds(x.sys.pcs[c])
    ensures Has(x.sys.pcs[c], x.ph[c]) && Recorded(x.sys.pcs[c], x.ph[c])
  {
  }
}
