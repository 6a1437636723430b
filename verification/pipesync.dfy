/** Readers, writers and closers of one pipe, on any number of CPUs: pipewrite, piperead and pipeclose of
    kernel/pipe.c with sleep, wakeup and kill of kernel/proc.c.

    A step is what one thread does between two points where another can interfere. sleep is two steps: it
    takes ptable.lock and gives up the pipe lock, then it marks itself asleep and gives up ptable.lock. */
module PipeSync {
  import opened Bytes
  import opened PipeBuffer

  /** Where a thread is. The letters say writer, reader or closer. */
  datatype Phase =
    | Idle
    | WStart    // wants the pipe lock
    | WCopy     // has it, in the for loop
    | WFull     // found the pipe full
    | WWake     // before wakeup(&nread) of the full pipe
    | WSleep    // before sleep(&nwrite)
    | WGoing    // in sleep with ptable.lock, the pipe lock given up
    | WAsleep
    | WDone     // all written, before wakeup(&nread)
    | WRel      // before release
    | RStart | RCheck | RSleep | RGoing | RAsleep
    | RCopied   // bytes taken, before wakeup(&nwrite)
    | RRel
    | CRead     // readopen cleared, before wakeup(&nwrite)
    | CWrite    // writeopen cleared, before wakeup(&nread)
    | CRel

  datatype Thread = Thread(ph: Phase, rest: seq<byte>, n: nat, killed: bool)

  /** `accepted` and `taken` record all bytes put in and all bytes got out. */
  datatype Sys = Sys(buf: seq<byte>, readopen: bool, writeopen: bool, threads: seq<Thread>, accepted: seq<byte>,
                     taken: seq<byte>)

  predicate HoldsPipe(ph: Phase) {
    !(ph.Idle? || ph.WStart? || ph.WGoing? || ph.WAsleep? || ph.RStart? || ph.RGoing? || ph.RAsleep?)
  }

  predicate HoldsTable(ph: Phase) {
    ph.WGoing? || ph.RGoing?
  }

  predicate Writing(ph: Phase) {
    || ph.WStart? || ph.WCopy? || ph.WFull? || ph.WWake? || ph.WSleep? || ph.WGoing? || ph.WAsleep? || ph.WDone?
    || ph.WRel?
  }

  predicate Reading(ph: Phase) {
    ph.RStart? || ph.RCheck? || ph.RSleep? || ph.RGoing? || ph.RAsleep? || ph.RCopied? || ph.RRel?
  }

  /** Asleep, or past the point where it gives up the pipe lock to sleep. */
  predicate WriterDown(ph: Phase) {
    ph.WGoing? || ph.WAsleep?
  }

  predicate ReaderDown(ph: Phase) {
    ph.RGoing? || ph.RAsleep?
  }

  predicate WakesWriters(ph: Phase) {
    ph.RCopied? || ph.CRead?
  }

  predicate WakesReaders(ph: Phase) {
    ph.WFull? || ph.WWake? || ph.WDone? || ph.CWrite?
  }

  predicate PipeFree(s: Sys) {
    forall t :: 0 <= t < |s.threads| ==> !HoldsPipe(s.threads[t].ph)
  }

  predicate TableFree(s: Sys) {
    forall t :: 0 <= t < |s.threads| ==> !HoldsTable(s.threads[t].ph)
  }

  datatype Action = BeginWrite(bytes: seq<byte>) | BeginRead(n: nat) | Go | Kill | CloseRead | CloseWrite

  /** A last descriptor is not closed while a call through it is in progress: the call's process still has it open. */
  predicate Can(s: Sys, t: nat, a: Action)
    requires t < |s.threads|
  {
    var ph := s.threads[t].ph;
    match a
    case BeginWrite(_) => ph == Idle && s.writeopen
    case BeginRead(_) => ph == Idle && s.readopen
    case CloseRead =>
      ph == Idle && s.readopen && PipeFree(s) && (forall i :: 0 <= i < |s.threads| ==> !Reading(s.threads[i].ph))
    case CloseWrite =>
      ph == Idle && s.writeopen && PipeFree(s) && (forall i :: 0 <= i < |s.threads| ==> !Writing(s.threads[i].ph))
    case Kill => TableFree(s)
    case Go =>
      && !ph.Idle? && !ph.WAsleep? && !ph.RAsleep?
      && (ph.WStart? || ph.RStart? ==> PipeFree(s))
      && (ph.WSleep? || ph.RSleep? || ph.WWake? || ph.WDone? || WakesWriters(ph) || ph.CWrite? ==> TableFree(s))
  }

  function Set(s: Sys, t: nat, th: Thread): Sys
    requires t < |s.threads|
  {
    s.(threads := s.threads[t := th])
  }

  function At(s: Sys, t: nat, ph: Phase): Sys
    requires t < |s.threads|
  {
    Set(s, t, s.threads[t].(ph := ph))
  }

  /** A woken sleeper next wants the pipe lock. */
  function Up(th: Thread, asleep: Phase): Thread {
    if th.ph != asleep then th else th.(ph := if asleep == WAsleep then WStart else RStart)
  }

  function Wakeup(s: Sys, asleep: Phase): (r: Sys)
    ensures |r.threads| == |s.threads| && forall i :: 0 <= i < |s.threads| ==> r.threads[i] == Up(s.threads[i], asleep)
    ensures r == s.(threads := r.threads)
  {
    s.(threads := seq(|s.threads|, i requires 0 <= i < |s.threads| => Up(s.threads[i], asleep)))
  }

  /** What a thread does next where it stands. */
  function Move(s: Sys, t: nat): Sys
    requires t < |s.threads|
  {
    var th := s.threads[t];
    match th.ph
    case Idle => s
    case WStart => At(s, t, WCopy)
    case WCopy =>
      var k := if |s.buf| > PIPESIZE then 0 else Min(|th.rest|, PIPESIZE - |s.buf|);
      Set(s, t, th.(ph := if k == |th.rest| then WDone else WFull, rest := th.rest[k..]))
      .(buf := s.buf + th.rest[..k], accepted := s.accepted + th.rest[..k])
    case WFull => At(s, t, if !s.readopen || th.killed then WRel else WWake)
    case WWake => At(Wakeup(s, RAsleep), t, WSleep)
    case WSleep => At(s, t, WGoing)
    case WGoing => At(s, t, WAsleep)
    case WAsleep => s
    case WDone => At(Wakeup(s, RAsleep), t, WRel)
    case WRel => At(s, t, Idle)
    case RStart => At(s, t, RCheck)
    case RCheck =>
      if s.buf == [] && s.writeopen then At(s, t, if th.killed then RRel else RSleep)
      else
        var k := Min(th.n, |s.buf|);
        At(s, t, RCopied).(buf := s.buf[k..], taken := s.taken + s.buf[..k])
    case RSleep => At(s, t, RGoing)
    case RGoing => At(s, t, RAsleep)
    case RAsleep => s
    case RCopied => At(Wakeup(s, WAsleep), t, RRel)
    case RRel => At(s, t, Idle)
    case CRead => At(Wakeup(s, WAsleep), t, CRel)
    case CWrite => At(Wakeup(s, RAsleep), t, CRel)
    case CRel => At(s, t, Idle)
  }

  function After(s: Sys, t: nat, a: Action): Sys
    requires t < |s.threads| && Can(s, t, a)
  {
    var th := s.threads[t];
    match a
    case BeginWrite(bytes) => Set(s, t, th.(ph := WStart, rest := bytes))
    case BeginRead(n) => Set(s, t, th.(ph := RStart, n := n))
    case CloseRead => At(s, t, CRead).(readopen := false)
    case CloseWrite => At(s, t, CWrite).(writeopen := false)
    case Kill => Set(s, t, Up(Up(th, WAsleep), RAsleep).(killed := true))
    case Go => Move(s, t)
  }

  // ----- the invariant -----

  predicate Apart(a: Thread, b: Thread) {
    !(HoldsPipe(a.ph) && HoldsPipe(b.ph)) && !(HoldsTable(a.ph) && HoldsTable(b.ph))
  }

  predicate AllApart(s: Sys) {
    forall t, u :: 0 <= t < |s.threads| && 0 <= u < |s.threads| && t != u ==> Apart(s.threads[t], s.threads[u])
  }

  /** Some thread that holds the pipe lock will still wake the writers. */
  predicate WritersDue(s: Sys) {
    exists t :: 0 <= t < |s.threads| && WakesWriters(s.threads[t].ph)
  }

  predicate ReadersDue(s: Sys) {
    exists t :: 0 <= t < |s.threads| && WakesReaders(s.threads[t].ph)
  }

  predicate Full(s: Sys) {
    |s.buf| == PIPESIZE
  }

  /** What a thread knows where it stands; what a sleeping reader knows is claimed only when strict. */
  predicate ThreadOk(s: Sys, th: Thread, strict: bool) {
    && (WriterDown(th.ph) ==> (Full(s) && s.readopen) || WritersDue(s))
    && (strict && ReaderDown(th.ph) ==> (s.buf == [] && s.writeopen) || ReadersDue(s))
    && (th.ph.WWake? || th.ph.WSleep? ==> Full(s) && s.readopen)
    && (th.ph == WFull ==> Full(s))
    && (th.ph == RSleep ==> s.buf == [] && s.writeopen)
    && (Reading(th.ph) ==> s.readopen)
    && (Writing(th.ph) ==> s.writeopen)
  }

  predicate Inv(s: Sys, strict: bool) {
    && |s.buf| <= PIPESIZE
    && s.taken + s.buf == s.accepted
    && AllApart(s)
    && (forall t :: 0 <= t < |s.threads| ==> ThreadOk(s, s.threads[t], strict))
  }

  /** The exit of a killed writer from a full pipe past a sleeping reader. */
  predicate Abandons(s: Sys, t: nat, a: Action)
    requires t < |s.threads|
  {
    a == Go && s.threads[t].ph == WFull && s.threads[t].killed && s.readopen &&
    exists r :: 0 <= r < |s.threads| && ReaderDown(s.threads[r].ph)
  }

  // ----- steps -----

  /** What the other threads see of a step: at most that they are woken. */
  predicate Others(s: Sys, r: Sys, t: nat) {
    && |r.threads| == |s.threads|
    && (forall u :: 0 <= u < |s.threads| && u != t ==>
          r.threads[u] == s.threads[u] || (Woke(s.threads[u], r.threads[u])))
  }

  predicate Woke(p: Thread, q: Thread) {
    (p.ph.WAsleep? && q.ph.WStart?) || (p.ph.RAsleep? && q.ph.RStart?)
  }

  /** Locks are taken only when free. */
  predicate Takes(s: Sys, r: Sys, t: nat)
    requires t < |s.threads| == |r.threads|
  {
    && (HoldsPipe(r.threads[t].ph) ==> HoldsPipe(s.threads[t].ph) || PipeFree(s))
    && (HoldsTable(r.threads[t].ph) ==> HoldsTable(s.threads[t].ph) || TableFree(s))
  }

  lemma {:induction false} StillApart(s: Sys, r: Sys, t: nat, strict: bool)
    requires Inv(s, strict) && t < |s.threads| && Others(s, r, t) && Takes(s, r, t)
    ensures AllApart(r)
  {
    forall x, y | 0 <= x < |r.threads| && 0 <= y < |r.threads| && x != y
      ensures Apart(r.threads[x], r.threads[y])
    {
      assert Apart(s.threads[x], s.threads[y]);
    }
  }

  /** A thread that waits to wake others is the one that holds the pipe lock. */
  lemma {:induction false} DueHolds(s: Sys, t: nat)
    requires AllApart(s) && t < |s.threads| && HoldsPipe(s.threads[t].ph)
    ensures WritersDue(s) <==> WakesWriters(s.threads[t].ph)
    ensures ReadersDue(s) <==> WakesReaders(s.threads[t].ph)
  {
    if WritersDue(s) {
      var u :| 0 <= u < |s.threads| && WakesWriters(s.threads[u].ph);
      assert u == t;
    }
    if ReadersDue(s) {
      var u :| 0 <= u < |s.threads| && WakesReaders(s.threads[u].ph);
      assert u == t;
    }
  }

  predicate SameData(s: Sys, r: Sys) {
    && r.buf == s.buf && r.readopen == s.readopen && r.writeopen == s.writeopen && r.accepted == s.accepted
    && r.taken == s.taken
  }

  /** The pipe does not change, no sleeper moves and no wakeup that is due is dropped. */
  lemma {:induction false} QuietStep(s: Sys, r: Sys, t: nat, th: Thread, strict: bool)
    requires Inv(s, strict) && t < |s.threads| && SameData(s, r) && r.threads == s.threads[t := th] && Takes(s, r, t)
    requires WakesWriters(s.threads[t].ph) ==> WakesWriters(th.ph)
    requires WakesReaders(s.threads[t].ph) ==> WakesReaders(th.ph)
    requires ThreadOk(s, th, strict)
    ensures Inv(r, strict)
  {
    StillApart(s, r, t, strict);
    if WritersDue(s) {
      var u :| 0 <= u < |s.threads| && WakesWriters(s.threads[u].ph);
      assert WakesWriters(r.threads[u].ph);
    }
    if ReadersDue(s) {
      var u :| 0 <= u < |s.threads| && WakesReaders(s.threads[u].ph);
      assert WakesReaders(r.threads[u].ph);
    }
    forall u | 0 <= u < |r.threads|
      ensures ThreadOk(r, r.threads[u], strict)
    {
      assert ThreadOk(s, s.threads[u], strict);
    }
  }

  /** The wakeup that was due: every sleeper it was due to is up. */
  lemma {:induction false} WakeStep(s: Sys, r: Sys, t: nat, asleep: Phase, ph: Phase, strict: bool)
    requires Inv(s, strict) && t < |s.threads| && TableFree(s) && r == At(Wakeup(s, asleep), t, ph)
    requires (asleep == WAsleep && WakesWriters(s.threads[t].ph))
             || (asleep == RAsleep && WakesReaders(s.threads[t].ph))
    requires ph.WSleep? || ph.WRel? || ph.RRel? || ph.CRel?
    requires ThreadOk(s, s.threads[t].(ph := ph), strict)
    ensures Inv(r, strict)
  {
    hide AllApart, Wakeup;
    StillApart(s, r, t, strict);
    DueHolds(s, t);
    hide WritersDue, ReadersDue;
    forall u | 0 <= u < |r.threads|
      ensures ThreadOk(r, r.threads[u], strict)
    {
      assert ThreadOk(s, s.threads[u], strict);
    }
  }

  /** Bytes move or an end closes, and the wakeup this calls for is now due. */
  lemma {:induction false} DataStep(s: Sys, r: Sys, t: nat, th: Thread, strict: bool)
    requires Inv(s, strict) && t < |s.threads| && r.threads == s.threads[t := th] && Takes(s, r, t)
    requires ThreadOk(r, th, strict)
    requires HoldsPipe(s.threads[t].ph) || PipeFree(s)
    requires !WakesWriters(s.threads[t].ph) && !WakesReaders(s.threads[t].ph)
    requires |r.buf| <= PIPESIZE && r.taken + r.buf == r.accepted
    requires (r.readopen == s.readopen && (Full(s) ==> Full(r))) || WakesWriters(th.ph)
    requires (r.writeopen == s.writeopen && (s.buf == [] ==> r.buf == [])) || WakesReaders(th.ph)
    requires r.readopen == s.readopen || forall u :: 0 <= u < |s.threads| ==> !Reading(s.threads[u].ph)
    requires r.writeopen == s.writeopen || forall u :: 0 <= u < |s.threads| ==> !Writing(s.threads[u].ph)
    ensures Inv(r, strict)
  {
    StillApart(s, r, t, strict);
    assert r.threads[t] == th;
    if HoldsPipe(s.threads[t].ph) { DueHolds(s, t); }
    forall u | 0 <= u < |r.threads|
      ensures ThreadOk(r, r.threads[u], strict)
    {
      assert ThreadOk(s, s.threads[u], strict);
      assert u != t ==> Apart(s.threads[t], s.threads[u]);
    }
  }

  lemma {:induction false} CopyIn(s: Sys, t: nat, strict: bool)
    requires Inv(s, strict) && t < |s.threads| && Can(s, t, Go) && s.threads[t].ph == WCopy
    ensures Inv(After(s, t, Go), strict)
  {
    var r := After(s, t, Go);
    var k := Min(|s.threads[t].rest|, PIPESIZE - |s.buf|);
    assert s.taken + (s.buf + s.threads[t].rest[..k]) == (s.taken + s.buf) + s.threads[t].rest[..k];
    assert ThreadOk(s, s.threads[t], strict);
    DataStep(s, r, t, r.threads[t], strict);
  }

  lemma {:induction false} CopyOut(s: Sys, t: nat, strict: bool)
    requires Inv(s, strict) && t < |s.threads| && Can(s, t, Go) && s.threads[t].ph == RCheck
    requires !(s.buf == [] && s.writeopen)
    ensures Inv(After(s, t, Go), strict)
  {
    var r := After(s, t, Go);
    var k := Min(s.threads[t].n, |s.buf|);
    assert (s.taken + s.buf[..k]) + s.buf[k..] == s.taken + s.buf;
    assert ThreadOk(s, s.threads[t], strict);
    DataStep(s, r, t, r.threads[t], strict);
  }

  /** A writer leaves a full pipe with -1. */
  lemma {:induction false} GiveUp(s: Sys, t: nat, strict: bool)
    requires Inv(s, strict) && t < |s.threads| && s.threads[t].ph == WFull && (!s.readopen || s.threads[t].killed)
    ensures Inv(After(s, t, Go), strict) <==> !(strict && Abandons(s, t, Go))
  {
    var r := After(s, t, Go);
    DueHolds(s, t);
    assert ThreadOk(s, s.threads[t], strict);
    StillApart(s, r, t, strict);
    if strict && Abandons(s, t, Go) {
      var u :| 0 <= u < |s.threads| && ReaderDown(s.threads[u].ph);
      assert r.threads[u] == s.threads[u];
      DueHolds(r, t);
      assert !ThreadOk(r, r.threads[u], strict);
    } else {
      forall u | 0 <= u < |r.threads|
        ensures ThreadOk(r, r.threads[u], strict)
      {
        assert ThreadOk(s, s.threads[u], strict);
      }
    }
  }

  predicate Wakes(ph: Phase) {
    ph.WWake? || ph.WDone? || ph.RCopied? || ph.CRead? || ph.CWrite?
  }

  lemma {:induction false} WakesReadersStep(s: Sys, t: nat, strict: bool)
    requires Inv(s, strict) && t < |s.threads| && Can(s, t, Go)
    requires s.threads[t].ph.WWake? || s.threads[t].ph.WDone? || s.threads[t].ph.CWrite?
    ensures Inv(After(s, t, Go), strict)
  {
    assert ThreadOk(s, s.threads[t], strict);
    hide Inv, WritersDue, ReadersDue;
    WakeStep(s, After(s, t, Go), t, RAsleep, After(s, t, Go).threads[t].ph, strict);
  }

  lemma {:induction false} WakesWritersStep(s: Sys, t: nat, strict: bool)
    requires Inv(s, strict) && t < |s.threads| && Can(s, t, Go) && WakesWriters(s.threads[t].ph)
    ensures Inv(After(s, t, Go), strict)
  {
    assert ThreadOk(s, s.threads[t], strict);
    hide Inv, WritersDue, ReadersDue;
    WakeStep(s, After(s, t, Go), t, WAsleep, After(s, t, Go).threads[t].ph, strict);
  }

  lemma {:induction false} GoKeepsInv(s: Sys, t: nat, strict: bool)
    requires Inv(s, strict) && t < |s.threads| && Can(s, t, Go)
    requires !(s.threads[t].ph.WFull? && (!s.readopen || s.threads[t].killed))
    ensures Inv(After(s, t, Go), strict)
  {
    var th := s.threads[t];
    hide Inv, After;
    if WakesWriters(th.ph) {
      WakesWritersStep(s, t, strict);
    } else if Wakes(th.ph) {
      WakesReadersStep(s, t, strict);
    } else if th.ph.WCopy? {
      CopyIn(s, t, strict);
    } else if th.ph.RCheck? && !(s.buf == [] && s.writeopen) {
      CopyOut(s, t, strict);
    } else {
      MoveKeepsInv(s, t, strict);
    }
  }

  /** The thread only moves on. */
  lemma {:induction false} MoveKeepsInv(s: Sys, t: nat, strict: bool)
    requires Inv(s, strict) && t < |s.threads| && Can(s, t, Go) && !Wakes(s.threads[t].ph) && !s.threads[t].ph.WCopy?
    requires s.threads[t].ph.RCheck? ==> s.buf == [] && s.writeopen
    requires s.threads[t].ph.WFull? ==> s.readopen && !s.threads[t].killed
    ensures Inv(After(s, t, Go), strict)
  {
    var th, r := s.threads[t], After(s, t, Go);
    assert ThreadOk(s, th, strict);
    hide Inv, WritersDue, ReadersDue;
    assert r == At(s, t, r.threads[t].ph);
    QuietStep(s, r, t, r.threads[t], strict);
  }

  lemma {:induction false} OtherKeepsInv(s: Sys, t: nat, a: Action, strict: bool)
    requires Inv(s, strict) && t < |s.threads| && Can(s, t, a) && a != Go
    ensures Inv(After(s, t, a), strict)
  {
    hide Move, Wakeup;
    var r := After(s, t, a);
    assert ThreadOk(s, s.threads[t], strict);
    if a.CloseRead? || a.CloseWrite? {
      DataStep(s, r, t, r.threads[t], strict);
    } else {
      hide Inv, WritersDue, ReadersDue;
      QuietStep(s, r, t, r.threads[t], strict);
    }
  }

  /** Every step keeps the invariant but the one that abandons a reader, and that one breaks it. */
  lemma {:induction false} StepKeepsInv(s: Sys, t: nat, a: Action, strict: bool)
    requires Inv(s, strict) && t < |s.threads| && Can(s, t, a)
    ensures Inv(After(s, t, a), strict) <==> !(strict && Abandons(s, t, a))
  {
    hide Inv, After;
    if a != Go {
      OtherKeepsInv(s, t, a, strict);
    } else if s.threads[t].ph.WFull? && (!s.readopen || s.threads[t].killed) {
      GiveUp(s, t, strict);
    } else {
      GoKeepsInv(s, t, strict);
    }
  }

  /** Whom the step of a thread wakes. */
  function Woken(ph: Phase): Phase {
    if WakesWriters(ph) then WAsleep else if WakesReaders(ph) && !ph.WFull? then RAsleep else Idle
  }

  lemma {:induction false} OthersSee(s: Sys, t: nat, u: nat)
    requires t < |s.threads| && u < |s.threads| && u != t
    ensures |Move(s, t).threads| == |s.threads|
    ensures Move(s, t).threads[u] ==
      if Woken(s.threads[t].ph) == Idle then s.threads[u] else Up(s.threads[u], Woken(s.threads[t].ph))
  {
    hide Min, Up, Wakeup;
    if Woken(s.threads[t].ph) != Idle {
      assert Wakeup(s, Woken(s.threads[t].ph)).threads[u] == Up(s.threads[u], Woken(s.threads[t].ph));
    }
  }

  /** A sleeping writer gets up by exactly a wakeup of the writers or its kill. */
  lemma {:induction false} WriterUp(s: Sys, t: nat, a: Action, u: nat)
    requires t < |s.threads| && Can(s, t, a) && u < |s.threads| && s.threads[u].ph == WAsleep
    ensures |After(s, t, a).threads| == |s.threads|
    ensures After(s, t, a).threads[u].ph ==
      if (a == Go && WakesWriters(s.threads[t].ph)) || (a == Kill && t == u) then WStart else WAsleep
  {
    hide Move;
    if u != t { OthersSee(s, t, u); }
  }

  /** A sleeping reader gets up by exactly a wakeup of the readers or its kill. */
  lemma {:induction false} ReaderUp(s: Sys, t: nat, a: Action, u: nat)
    requires t < |s.threads| && Can(s, t, a) && u < |s.threads| && s.threads[u].ph == RAsleep
    ensures |After(s, t, a).threads| == |s.threads|
    ensures After(s, t, a).threads[u].ph ==
            if (a == Go && WakesReaders(s.threads[t].ph) && s.threads[t].ph != WFull) || (a == Kill && t == u)
            then RStart else RAsleep
  {
    hide Move;
    if u != t { OthersSee(s, t, u); }
  }

  // ----- runs -----

  datatype Step = Step(thread: nat, action: Action)

  predicate CanRun(s: Sys, steps: seq<Step>)
    decreases |steps|
  {
    steps == [] ||
    (steps[0].thread < |s.threads| && Can(s, steps[0].thread, steps[0].action) &&
     CanRun(After(s, steps[0].thread, steps[0].action), steps[1..]))
  }

  function RunOf(s: Sys, steps: seq<Step>): Sys
    requires CanRun(s, steps)
    decreases |steps|
  {
    if steps == [] then s else RunOf(After(s, steps[0].thread, steps[0].action), steps[1..])
  }

  /** No step of the run is the exit of a killed writer past a sleeping reader. */
  predicate NeverAbandons(s: Sys, steps: seq<Step>)
    requires CanRun(s, steps)
    decreases |steps|
  {
    steps == [] ||
    (!Abandons(s, steps[0].thread, steps[0].action) &&
     NeverAbandons(After(s, steps[0].thread, steps[0].action), steps[1..]))
  }

  /** pipealloc. */
  function Fresh(threads: nat): Sys {
    Sys([], true, true, seq(threads, _ => Thread(Idle, [], 0, false)), [], [])
  }

  lemma {:induction false} RunKeepsInv(s: Sys, steps: seq<Step>, strict: bool)
    requires Inv(s, strict) && CanRun(s, steps) && (strict ==> NeverAbandons(s, steps))
    ensures Inv(RunOf(s, steps), strict)
    decreases |steps|
  {
    hide Inv;
    if steps != [] {
      StepKeepsInv(s, steps[0].thread, steps[0].action, strict);
      RunKeepsInv(After(s, steps[0].thread, steps[0].action), steps[1..], strict);
    }
  }

  /** Through any run: what was read followed by what is queued is what was written; one thread at a time has
      the pipe; and with the lock free a sleeping writer finds the pipe full and the read end open. */
  lemma {:induction false} PipeSafe(threads: nat, steps: seq<Step>, s: Sys)
    requires CanRun(Fresh(threads), steps) && s == RunOf(Fresh(threads), steps)
    ensures s.taken + s.buf == s.accepted && |s.buf| <= PIPESIZE && s.taken <= s.accepted
    ensures AllApart(s)
    ensures PipeFree(s) ==> forall t :: 0 <= t < |s.threads| && s.threads[t].ph == WAsleep ==> Full(s) && s.readopen
    ensures !s.readopen && !s.writeopen ==>
      forall t :: 0 <= t < |s.threads| ==> !Reading(s.threads[t].ph) && !Writing(s.threads[t].ph)
  {
    RunKeepsInv(Fresh(threads), steps, false);
    forall t | 0 <= t < |s.threads|
      ensures ThreadOk(s, s.threads[t], false)
    {
    }
  }

  /** Through any run without an abandoned reader: with the lock free a sleeping reader finds the pipe empty and
      the write end open, so that readers and writers are never asleep together. */
  lemma {:induction false} NoLostWakeup(threads: nat, steps: seq<Step>, s: Sys)
    requires CanRun(Fresh(threads), steps) && s == RunOf(Fresh(threads), steps) && NeverAbandons(Fresh(threads), steps)
    requires PipeFree(s)
    ensures forall t :: 0 <= t < |s.threads| && s.threads[t].ph == RAsleep ==> s.buf == [] && s.writeopen
    ensures forall t, u :: 0 <= t < |s.threads| && 0 <= u < |s.threads| ==>
      !(s.threads[t].ph == RAsleep && s.threads[u].ph == WAsleep)
  {
    RunKeepsInv(Fresh(threads), steps, true);
    forall t | 0 <= t < |s.threads|
      ensures ThreadOk(s, s.threads[t], true)
    {
    }
  }

  lemma {:induction false} Then(s: Sys, step: Step, r: Sys, rest: seq<Step>) returns (all: seq<Step>)
    requires step.thread < |s.threads| && Can(s, step.thread, step.action) && After(s, step.thread, step.action) == r
    requires CanRun(r, rest)
    ensures all == [step] + rest && CanRun(s, all) && RunOf(s, all) == RunOf(r, rest)
  {
    all := [step] + rest;
    assert all[1..] == rest;
  }

  /** Two threads with the lock free, the first asleep in read over a full pipe. */
  predicate Lost(s: Sys) {
    |s.threads| == 2 && s.threads[0].ph == RAsleep && s.threads[1].ph == Idle && Full(s)
  }

  function Pair(r: Thread, w: Thread, data: seq<byte>): Sys {
    Sys(data, true, true, [r, w], data, [])
  }

  const IDLE := Thread(Idle, [], 0, false)

  /** The reader alone on its way to sleep. */
  lemma {:induction false} ReaderGoes(r: Thread, ph: Phase)
    requires !r.killed
    requires (r.ph.RStart? && ph.RCheck?) || (r.ph.RCheck? && ph.RSleep?) || (r.ph.RSleep? && ph.RGoing?)
             || (r.ph.RGoing? && ph.RAsleep?)
    ensures Can(Pair(r, IDLE, []), 0, Go) && After(Pair(r, IDLE, []), 0, Go) == Pair(r.(ph := ph), IDLE, [])
  {
  }

  const SLEEPER := Thread(RAsleep, [], 1, false)

  /** The writer on its way in and, once it is killed, out. */
  lemma {:induction false} WriterGoes(w: Thread, ph: Phase, data: seq<byte>)
    requires w.killed && ((w.ph.WStart? && ph.WCopy?) || (w.ph.WFull? && ph.WRel?) || (w.ph.WRel? && ph.Idle?))
    ensures Can(Pair(SLEEPER, w, data), 1, Go)
    ensures After(Pair(SLEEPER, w, data), 1, Go) == Pair(SLEEPER, w.(ph := ph), data)
  {
  }

  lemma {:induction false} WriterFills(w: Thread)
    requires w.killed && w.ph == WCopy && |w.rest| > PIPESIZE
    ensures Can(Pair(SLEEPER, w, []), 1, Go)
    ensures After(Pair(SLEEPER, w, []), 1, Go) ==
            Pair(SLEEPER, w.(ph := WFull, rest := w.rest[PIPESIZE..]), w.rest[..PIPESIZE])
  {
    assert [] + w.rest[..PIPESIZE] == w.rest[..PIPESIZE];
  }

  lemma {:induction false} WriterGivesUp(bytes: seq<byte>) returns (steps: seq<Step>)
    requires |bytes| > PIPESIZE
    ensures CanRun(Pair(SLEEPER, Thread(WStart, bytes, 0, true), []), steps)
    ensures Lost(RunOf(Pair(SLEEPER, Thread(WStart, bytes, 0, true), []), steps))
  {
    hide Can, After;
    var w, data := Thread(WStart, bytes, 0, true), bytes[..PIPESIZE];
    var f := w.(rest := bytes[PIPESIZE..]);
    WriterGoes(w, WCopy, []);
    WriterFills(w.(ph := WCopy));
    WriterGoes(f.(ph := WFull), WRel, data);
    WriterGoes(f.(ph := WRel), Idle, data);
    steps := Then(Pair(SLEEPER, f.(ph := WRel), data), Step(1, Go), Pair(SLEEPER, f.(ph := Idle), data), []);
    steps := Then(Pair(SLEEPER, f.(ph := WFull), data), Step(1, Go), Pair(SLEEPER, f.(ph := WRel), data), steps);
    steps := Then(Pair(SLEEPER, w.(ph := WCopy), []), Step(1, Go), Pair(SLEEPER, f.(ph := WFull), data), steps);
    steps := Then(Pair(SLEEPER, w, []), Step(1, Go), Pair(SLEEPER, w.(ph := WCopy), []), steps);
  }

  lemma {:induction false} WriterKilled(bytes: seq<byte>) returns (steps: seq<Step>)
    requires |bytes| > PIPESIZE
    ensures CanRun(Pair(SLEEPER, IDLE, []), steps) && Lost(RunOf(Pair(SLEEPER, IDLE, []), steps))
  {
    hide CanRun, RunOf, Lost;
    var w := Thread(WStart, bytes, 0, false);
    steps := WriterGivesUp(bytes);
    steps := Then(Pair(SLEEPER, w, []), Step(1, Kill), Pair(SLEEPER, w.(killed := true), []), steps);
    steps := Then(Pair(SLEEPER, IDLE, []), Step(1, BeginWrite(bytes)), Pair(SLEEPER, w, []), steps);
  }

  /** Killed while it writes more than the pipe holds, a writer leaves a reader asleep over a full pipe. */
  lemma {:induction false} ReaderAbandoned(bytes: seq<byte>) returns (steps: seq<Step>)
    requires |bytes| > PIPESIZE
    ensures CanRun(Fresh(2), steps) && Lost(RunOf(Fresh(2), steps))
  {
    hide CanRun, RunOf, Lost;
    var s0, r := Fresh(2), SLEEPER;
    assert s0 == Pair(IDLE, IDLE, []) by { assert s0.threads == [IDLE, IDLE]; }
    assert Can(s0, 0, BeginRead(1)) && After(s0, 0, BeginRead(1)) == Pair(r.(ph := RStart), IDLE, []);
    hide Can, After;
    ReaderGoes(r.(ph := RStart), RCheck);
    ReaderGoes(r.(ph := RCheck), RSleep);
    ReaderGoes(r.(ph := RSleep), RGoing);
    ReaderGoes(r.(ph := RGoing), RAsleep);
    steps := WriterKilled(bytes);
    steps := Then(Pair(r.(ph := RGoing), IDLE, []), Step(0, Go), Pair(r, IDLE, []), steps);
    steps := Then(Pair(r.(ph := RSleep), IDLE, []), Step(0, Go), Pair(r.(ph := RGoing), IDLE, []), steps);
    steps := Then(Pair(r.(ph := RCheck), IDLE, []), Step(0, Go), Pair(r.(ph := RSleep), IDLE, []), steps);
    steps := Then(Pair(r.(ph := RStart), IDLE, []), Step(0, Go), Pair(r.(ph := RCheck), IDLE, []), steps);
    steps := Then(s0, Step(0, BeginRead(1)), Pair(r.(ph := RStart), IDLE, []), steps);
  }
}
