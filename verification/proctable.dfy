/** The process table of kernel/proc.c and the scans made over it with ptable.lock held. */
module ProcTable {

  const NOBODY := -1

  datatype State = UNUSED | EMBRYO | SLEEPING | RUNNABLE | RUNNING | ZOMBIE

  /** What a process sleeps on: nothing, the address of a process, or some other address. */
  datatype Chan = Nil | OfProc(slot: int) | Address(a: int)

  /** Where a process goes on when it is switched to. */
  datatype Context = InYield | InSleep | InWait | InForkret

  /** struct proc; `np` is fork's local pointer to the child it is building. */
  datatype Proc = Proc(state: State, pid: nat, parent: int, chan: Chan, killed: bool, kstack: bool, context: Context,
                       np: int)

  /** A slot no process has used yet. */
  const FREE := Proc(UNUSED, 0, NOBODY, Nil, false, false, InForkret, NOBODY)

  /** wait's reset of a zombie's slot. */
  function Reaped(p: Proc): Proc {
    p.(kstack := false, state := UNUSED, pid := 0, parent := NOBODY, killed := false)
  }

  // ----- what the scans compute -----

  function Woken(p: Proc, chan: Chan): Proc {
    if p.state == SLEEPING && p.chan == chan then p.(state := RUNNABLE) else p
  }

  /** wakeup1 over the first n slots. */
  function WakeFirst(procs: seq<Proc>, chan: Chan, n: nat): (r: seq<Proc>)
    requires n <= |procs|
    ensures |r| == |procs| && forall i :: 0 <= i < |r| ==> r[i] == if i < n then Woken(procs[i], chan) else procs[i]
  {
    if n == 0 then procs else WakeFirst(procs, chan, n - 1)[n - 1 := Woken(procs[n - 1], chan)]
  }

  function Wake(procs: seq<Proc>, chan: Chan): (r: seq<Proc>)
    ensures |r| == |procs| && forall i :: 0 <= i < |r| ==> r[i] == Woken(procs[i], chan)
  {
    WakeFirst(procs, chan, |procs|)
  }

  /** Is one of the first n slots a zombie child of p? */
  predicate ZombieChild(procs: seq<Proc>, p: int, n: nat)
    requires n <= |procs|
  {
    exists i :: 0 <= i < n && procs[i].parent == p && procs[i].state == ZOMBIE
  }

  /** exit's passing of the children of p to init, over the first n slots. */
  function Adopt(procs: seq<Proc>, p: int, init: nat, n: nat): (r: seq<Proc>)
    requires n <= |procs|
    ensures |r| == |procs|
  {
    if n == 0 then procs
    else
      var s := Adopt(procs, p, init, n - 1);
      if s[n - 1].parent != p then s
      else
        var t := s[n - 1 := s[n - 1].(parent := init)];
        if t[n - 1].state == ZOMBIE then Wake(t, OfProc(init)) else t
  }

  /** Every child is init's now, and init is awake if one of them is a zombie. */
  lemma {:induction false} Adopted(procs: seq<Proc>, p: int, init: nat, n: nat, i: nat)
    requires n <= |procs| && i < |procs| && p != init
    ensures Adopt(procs, p, init, n)[i] ==
            var q := procs[i].(parent := if i < n && procs[i].parent == p then init else procs[i].parent);
            if ZombieChild(procs, p, n) then Woken(q, OfProc(init)) else q
  {
    if n > 0 {
      Adopted(procs, p, init, n - 1, i);
      Adopted(procs, p, init, n - 1, n - 1);
      assert ZombieChild(procs, p, n) <==>
             ZombieChild(procs, p, n - 1) || (procs[n - 1].parent == p && procs[n - 1].state == ZOMBIE);
    }
  }

  /** The first unused slot, or the length of the table. */
  function FirstUnused(procs: seq<Proc>, i: nat): (r: nat)
    requires i <= |procs|
    ensures i <= r <= |procs| && (r < |procs| ==> procs[r].state == UNUSED) && forall j :: i <= j < r ==>
      procs[j].state != UNUSED
    decreases |procs| - i
  {
    if i == |procs| || procs[i].state == UNUSED then i else FirstUnused(procs, i + 1)
  }

  /** The first zombie child of p, or the length of the table. */
  function FirstZombie(procs: seq<Proc>, p: int, i: nat): (r: nat)
    requires i <= |procs|
    ensures i <= r <= |procs| && (r < |procs| ==> procs[r].parent == p && procs[r].state == ZOMBIE)
    ensures forall j :: i <= j < r ==> !(procs[j].parent == p && procs[j].state == ZOMBIE)
    decreases |procs| - i
  {
    if i == |procs| || (procs[i].parent == p && procs[i].state == ZOMBIE) then i else FirstZombie(procs, p, i + 1)
  }

  /** The first slot with the pid, or the length of the table. */
  function FirstPid(procs: seq<Proc>, pid: int, i: nat): (r: nat)
    requires i <= |procs|
    ensures i <= r <= |procs| && (r < |procs| ==> procs[r].pid == pid) && forall j :: i <= j < r ==> procs[j].pid != pid
    decreases |procs| - i
  {
    if i == |procs| || procs[i].pid == pid then i else FirstPid(procs, pid, i + 1)
  }

  predicate HasChild(procs: seq<Proc>, p: int) {
    exists i :: 0 <= i < |procs| && procs[i].parent == p
  }

  function Killed(p: Proc): Proc {
    p.(killed := true, state := if p.state == SLEEPING then RUNNABLE else p.state)
  }

  /** kill marks the first process with the pid, and wakes it if it sleeps. */
  function KillFirst(procs: seq<Proc>, pid: int): (r: seq<Proc>)
    ensures |r| == |procs|
  {
    var i := FirstPid(procs, pid, 0);
    if i < |procs| then procs[i := Killed(procs[i])] else procs
  }

  // ----- the scans -----

  class Table {
    var proc: seq<Proc>

    constructor (procs: seq<Proc>)
      ensures proc == procs
    {
      proc := procs;
    }

    /** wakeup1. */
    method Wakeup1(chan: Chan)
      modifies this
      ensures proc == Wake(old(proc), chan)
    {
      var i := 0;
      while i < |proc|
        invariant 0 <= i <= |proc| == |old(proc)| && proc == WakeFirst(old(proc), chan, i)
      {
        if proc[i].state == SLEEPING && proc[i].chan == chan {
          proc := proc[i := proc[i].(state := RUNNABLE)];
        }
        i := i + 1;
      }
    }

    /** exit's loop over the children. */
    method PassToInit(p: int, init: nat)
      modifies this
      ensures proc == Adopt(old(proc), p, init, |old(proc)|)
    {
      var i := 0;
      while i < |proc|
        invariant 0 <= i <= |proc| == |old(proc)| && proc == Adopt(old(proc), p, init, i)
      {
        if proc[i].parent == p {
          proc := proc[i := proc[i].(parent := init)];
          if proc[i].state == ZOMBIE {
            Wakeup1(OfProc(init));
          }
        }
        i := i + 1;
      }
    }

    /** allocproc's scan: the first unused slot, or -1. */
    method FindUnused() returns (r: int)
      ensures r == if FirstUnused(proc, 0) < |proc| then FirstUnused(proc, 0) else -1
    {
      r := 0;
      while r < |proc|
        invariant 0 <= r <= |proc| && FirstUnused(proc, 0) == FirstUnused(proc, r)
      {
        if proc[r].state == UNUSED { return; }
        r := r + 1;
      }
      r := -1;
    }

    /** wait's scan: the first zombie child, or -1 and whether there are children. */
    method FindZombie(p: int) returns (r: int, havekids: bool)
      ensures r == if FirstZombie(proc, p, 0) < |proc| then FirstZombie(proc, p, 0) else -1
      ensures r == -1 ==> (havekids <==> HasChild(proc, p))
    {
      havekids := false;
      r := 0;
      while r < |proc|
        invariant 0 <= r <= |proc| && FirstZombie(proc, p, 0) == FirstZombie(proc, p, r)
        invariant havekids <==> exists i :: 0 <= i < r && proc[i].parent == p
      {
        if proc[r].parent == p {
          havekids := true;
          if proc[r].state == ZOMBIE { return; }
        }
        r := r + 1;
      }
      r := -1;
    }

    /** kill. */
    method Kill(pid: int) returns (r: int)
      modifies this
      ensures proc == KillFirst(old(proc), pid)
      ensures r == if exists i :: 0 <= i < |old(proc)| && old(proc)[i].pid == pid then 0 else -1
    {
      var i := 0;
      while i < |proc|
        invariant 0 <= i <= |proc| && proc == old(proc) && FirstPid(proc, pid, 0) == FirstPid(proc, pid, i)
      {
        if proc[i].pid == pid {
          assert old(proc)[i].pid == pid;
          proc := proc[i := proc[i].(killed := true)];
          if proc[i].state == SLEEPING {
            proc := proc[i := proc[i].(state := RUNNABLE)];
          }
          return 0;
        }
        i := i + 1;
      }
      return -1;
    }
  }
}
