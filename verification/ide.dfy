/** The request queue of kernel/ide.c, linked through the buffers. */
module IdeQueue {

  const NULL := -1

  /** From link p, the list runs through q and ends. */
  predicate Chain(p: int, next: seq<int>, q: seq<int>)
    decreases |q|
  {
    if q == [] then p == NULL else p == q[0] && 0 <= p < |next| && Chain(next[p], next, q[1..])
  }

  predicate Distinct(q: seq<int>) {
    forall i, j :: 0 <= i < j < |q| ==> q[i] != q[j]
  }

  /** Links of buffers that are not on the list do not matter. */
  lemma {:induction false} ChainFrame(p: int, next: seq<int>, q: seq<int>, b: nat, v: int)
    requires Chain(p, next, q) && b < |next| && b !in q
    ensures Chain(p, next[b := v], q)
    decreases |q|
  {
    if q != [] { ChainFrame(next[p], next, q[1..], b, v); }
  }

  lemma {:induction false} ChainIn(p: int, next: seq<int>, q: seq<int>)
    requires Chain(p, next, q)
    ensures forall i :: 0 <= i < |q| ==> 0 <= q[i] < |next|
    decreases |q|
  {
    if q != [] { ChainIn(next[p], next, q[1..]); }
  }

  /** The list of a buffer that is already linked to nothing, hung on the last link. */
  lemma {:induction false} ChainAppend(p: int, next: seq<int>, q: seq<int>, b: nat)
    requires Chain(p, next, q) && Distinct(q) && b < |next| && b !in q && next[b] == NULL && q != []
    requires 0 <= q[|q| - 1] < |next|
    ensures Chain(p, next[q[|q| - 1] := b], q + [b])
    decreases |q|
  {
    var last := q[|q| - 1];
    if |q| == 1 {
      assert (q + [b])[1..] == [b] && [b][1..] == [];
    } else {
      assert q[1..][|q| - 2] == last && (q + [b])[1..] == q[1..] + [b];
      ChainAppend(next[p], next, q[1..], b);
    }
  }

  class Queue {
    var idequeue: int
    var qnext: seq<int>
    ghost var queue: seq<int>

    ghost predicate Valid()
      reads this
    {
      Chain(idequeue, qnext, queue) && Distinct(queue)
    }

    constructor (n: nat)
      ensures Valid() && queue == [] && |qnext| == n
    {
      idequeue := NULL;
      qnext := seq(n, _ => NULL);
      queue := [];
    }

    /** iderw's walk to the end of the list; `pp` is the link it looks at, NULL for idequeue itself. */
    method Append(b: nat)
      requires Valid() && b < |qnext| && b !in queue
      modifies this
      ensures Valid() && queue == old(queue) + [b] && |qnext| == |old(qnext)|
      ensures idequeue == b <==> old(queue) == []
    {
      ChainFrame(idequeue, qnext, queue, b, NULL);
      ChainIn(idequeue, qnext, queue);
      qnext := qnext[b := NULL];
      var pp, at := NULL, idequeue;
      ghost var k := 0;
      while at != NULL
        invariant 0 <= k <= |queue| && pp == (if k == 0 then NULL else queue[k - 1])
        invariant Chain(at, qnext, queue[k..])
        decreases |queue| - k
      {
        assert queue[k..][0] == queue[k] && queue[k..][1..] == queue[k + 1..];
        pp, at := at, qnext[at];
        k := k + 1;
      }
      assert queue[k..] == [];
      if pp == NULL {
        idequeue := b;
        assert [b][1..] == [];
      } else {
        ChainAppend(idequeue, qnext, queue, b);
        qnext := qnext[pp := b];
      }
      queue := queue + [b];
    }

    /** ideintr's removal of the active request. */
    method Pop() returns (b: int)
      requires Valid()
      modifies this
      ensures Valid() && |qnext| == |old(qnext)|
      ensures old(queue) == [] ==> b == NULL && queue == []
      ensures old(queue) != [] ==> b == old(queue)[0] && queue == old(queue)[1..]
    {
      b := idequeue;
      if b == NULL {
        return;
      }
      idequeue := qnext[b];
      queue := queue[1..];
    }
  }
}

/** kernel/ide.c with its processes, interrupts and device, against kernel/memide.c.

    A step is one critical section of idelock; going to sleep on a buffer is part of the section that finds it
    unfinished. The device takes its command from idestart and answers with an interrupt. */
module Ide {
  import opened Bytes

  datatype Buf = Buf(busy: bool, valid: bool, dirty: bool, dev: nat, sector: nat, data: Block)

  datatype Lba = Lba(dev: nat, sector: nat)

  /** What idestart tells the device: one bit of the device number and 28 of the sector. */
  function Address(b: Buf): Lba {
    Lba(b.dev % 2, b.sector % 0x1000_0000)
  }

  /** The sector a buffer is for. */
  function SectorOf(b: Buf): Lba {
    Lba(b.dev, b.sector)
  }

  datatype Request = None | Read(lba: Lba) | Write(lba: Lba, data: Block)

  /** idestart. */
  function Start(b: Buf): Request {
    if b.dirty then Write(Address(b), b.data) else Read(Address(b))
  }

  predicate Finished(b: Buf) {
    b.valid && !b.dirty
  }

  /** A process outside iderw, or in it with a buffer, asleep or not. */
  datatype Thread = Out | In(buf: nat, asleep: bool)

  /** `called` and `done` record the buffers of all calls and of all finished requests. */
  datatype Sys = Sys(bufs: seq<Buf>, queue: seq<nat>, device: Request, disk: map<Lba, Block>, threads: seq<Thread>,
                     called: seq<nat>, done: seq<nat>)

  predicate InCall(s: Sys, b: nat) {
    exists t :: 0 <= t < |s.threads| && s.threads[t].In? && s.threads[t].buf == b
  }

  datatype Action =
    | Call(t: nat, b: nat)          // iderw up to sleep
    | Interrupt(ok: bool)           // ideintr; does the device report success?
    | Spurious(t: nat)              // something else, such as kill, wakes the sleeper
    | Look(t: nat)                  // the awake process tests its buffer again
    | Use(b: nat, to: Buf)          // the owner of a buffer that is not in iderw changes it

  /** Buffers in use are for different sectors: the cache has one buffer for each. */
  predicate Can(s: Sys, a: Action) {
    match a
    case Call(t, b) =>
      && t < |s.threads| && s.threads[t] == Out && b < |s.bufs| && !InCall(s, b)
      && s.bufs[b].busy && !Finished(s.bufs[b]) && Address(s.bufs[b]) in s.disk
      && (forall i :: 0 <= i < |s.bufs| && InCall(s, i) ==> SectorOf(s.bufs[i]) != SectorOf(s.bufs[b]))
    case Interrupt(_) => true
    case Spurious(t) => t < |s.threads| && s.threads[t].In?
    case Look(t) => t < |s.threads| && s.threads[t].In? && !s.threads[t].asleep
    case Use(b, _) => b < |s.bufs| && !InCall(s, b)
  }

  /** ideintr on the head b: the device has carried out its command, unless it failed. */
  function Complete(b: Buf, device: Request, disk: map<Lba, Block>, ok: bool): (r: (Buf, map<Lba, Block>))
  {
    var d := if device.Write? && ok then disk[device.lba := device.data] else disk;
    var data := if !b.dirty && ok && device.Read? && device.lba in disk then disk[device.lba] else b.data;
    (b.(data := data, valid := true, dirty := false), d)
  }

  function WakeBuf(threads: seq<Thread>, b: nat): (r: seq<Thread>)
    ensures |r| == |threads|
    ensures forall t :: 0 <= t < |r| ==>
      r[t] == if threads[t].In? && threads[t].buf == b then threads[t].(asleep := false) else threads[t]
  {
    seq(|threads|, t requires 0 <= t < |threads| =>
      if threads[t].In? && threads[t].buf == b then threads[t].(asleep := false) else threads[t])
  }

  function After(s: Sys, a: Action): Sys
    requires Can(s, a)
  {
    match a
    case Call(t, b) =>
      s.(queue := s.queue + [b], called := s.called + [b], threads := s.threads[t := In(b, true)],
         device := if s.queue == [] then Start(s.bufs[b]) else s.device)
    case Interrupt(ok) =>
      if s.queue == [] || s.queue[0] >= |s.bufs| then s
      else
        var b := s.queue[0];
        var (buf, disk) := Complete(s.bufs[b], s.device, s.disk, ok);
        var bufs := s.bufs[b := buf];
        s.(bufs := bufs, disk := disk, queue := s.queue[1..], done := s.done + [b], threads := WakeBuf(s.threads, b),
           device := if |s.queue| > 1 && s.queue[1] < |bufs| then Start(bufs[s.queue[1]]) else None)
    case Spurious(t) => s.(threads := s.threads[t := s.threads[t].(asleep := false)])
    case Look(t) =>
      var b := s.threads[t].buf;
      s.(threads := s.threads[t := if b < |s.bufs| && Finished(s.bufs[b]) then Out else In(b, true)])
    case Use(b, to) => s.(bufs := s.bufs[b := to])
  }

  /** iderw of kernel/memide.c: the whole request at once. */
  function MemIderw(b: Buf, disk: map<Lba, Block>): (Buf, map<Lba, Block>)
    requires Address(b) in disk
  {
    if b.dirty then (b.(dirty := false, valid := true), disk[Address(b) := b.data])
    else (b.(data := disk[Address(b)], valid := true), disk)
  }

  // ----- the invariant -----

  /** A queued buffer: busy, unfinished, in a call. */
  predicate QueuedOk(s: Sys, b: nat) {
    b < |s.bufs| && s.bufs[b].busy && !Finished(s.bufs[b]) && InCall(s, b)
  }

  predicate ThreadOk(s: Sys, th: Thread, strict: bool) {
    th.In? ==>
      && th.buf < |s.bufs| && s.bufs[th.buf].busy && Address(s.bufs[th.buf]) in s.disk
      && (th.asleep ==> th.buf in s.queue)
      && (th.buf !in s.queue ==> Finished(s.bufs[th.buf]))
      && (strict && th.buf !in s.queue ==> s.bufs[th.buf].data == s.disk[Address(s.bufs[th.buf])])
  }

  predicate Apart(s: Sys, a: Thread, b: Thread, strict: bool) {
    a.In? && b.In? && a.buf < |s.bufs| && b.buf < |s.bufs| ==>
      a.buf != b.buf && (strict ==> Address(s.bufs[a.buf]) != Address(s.bufs[b.buf]))
  }

  /** The invariant; the strict one also says that buffers whose requests are finished agree with the disk, and that
      those in calls have different addresses. */
  predicate Inv(s: Sys, strict: bool) {
    && (forall i :: 0 <= i < |s.queue| ==> QueuedOk(s, s.queue[i]))
    && (forall i, j :: 0 <= i < j < |s.queue| ==> s.queue[i] != s.queue[j])
    && (s.queue == [] ==> s.device == None)
    && (s.queue != [] ==> s.device == Start(s.bufs[s.queue[0]]))
    && s.called == s.done + s.queue
    && (forall t :: 0 <= t < |s.threads| ==> ThreadOk(s, s.threads[t], strict))
    && (forall t, u :: 0 <= t < |s.threads| && 0 <= u < |s.threads| && t != u ==>
          Apart(s, s.threads[t], s.threads[u], strict))
  }

  /** The device fails a request whose buffer does not happen to agree with the disk already. */
  predicate Fails(s: Sys, a: Action) {
    a == Interrupt(false) && s.queue != [] && s.queue[0] < |s.bufs| && Address(s.bufs[s.queue[0]]) in s.disk &&
    s.bufs[s.queue[0]].data != s.disk[Address(s.bufs[s.queue[0]])]
  }

  /** A call for a sector that the driver cannot tell from that of another call: they differ in the bits idestart
      leaves out. */
  predicate Aliases(s: Sys, a: Action) {
    a.Call? && a.b < |s.bufs| &&
    exists i: nat :: i < |s.bufs| && InCall(s, i) && Address(s.bufs[i]) == Address(s.bufs[a.b])
  }

  lemma {:induction false} CallKeeps(s: Sys, t: nat, b: nat, strict: bool)
    requires Inv(s, strict) && Can(s, Call(t, b)) && !(strict && Aliases(s, Call(t, b)))
    ensures Inv(After(s, Call(t, b)), strict)
  {
    var r := After(s, Call(t, b));
    assert r.threads[t] == In(b, true);
    assert b !in s.queue;
    forall i | 0 <= i < |r.queue|
      ensures QueuedOk(r, r.queue[i])
    {
      if i < |s.queue| {
        assert QueuedOk(s, s.queue[i]);
        var u :| 0 <= u < |s.threads| && s.threads[u].In? && s.threads[u].buf == s.queue[i];
        assert r.threads[u] == s.threads[u];
      }
    }
    forall u | 0 <= u < |r.threads|
      ensures ThreadOk(r, r.threads[u], strict)
    {
      assert ThreadOk(s, s.threads[u], strict);
    }
    forall x, y | 0 <= x < |r.threads| && 0 <= y < |r.threads| && x != y
      ensures Apart(r, r.threads[x], r.threads[y], strict)
    {
      assert Apart(s, s.threads[x], s.threads[y], strict);
      assert ThreadOk(s, s.threads[x], strict);
      assert ThreadOk(s, s.threads[y], strict);
      if x == t && s.threads[y].In? { assert InCall(s, s.threads[y].buf); }
      if y == t && s.threads[x].In? { assert InCall(s, s.threads[x].buf); }
    }
    assert r.called == r.done + r.queue;
  }

  lemma {:induction false} HeadInCall(s: Sys, strict: bool) returns (t: nat)
    requires Inv(s, strict) && s.queue != []
    ensures t < |s.threads| && s.threads[t].In? && s.threads[t].buf == s.queue[0] && ThreadOk(s, s.threads[t], strict)
    ensures s.queue[0] < |s.bufs| && Address(s.bufs[s.queue[0]]) in s.disk && s.queue[0] !in s.queue[1..]
  {
    assert QueuedOk(s, s.queue[0]);
    t :| 0 <= t < |s.threads| && s.threads[t].In? && s.threads[t].buf == s.queue[0];
  }

  /** An interrupt carries out, in one step, what the memory disk does for the buffer at the head. */
  lemma {:induction false} InterruptIsMemIderw(s: Sys, strict: bool)
    requires Inv(s, strict) && s.queue != []
    ensures s.queue[0] < |s.bufs| && Address(s.bufs[s.queue[0]]) in s.disk
    ensures var m := MemIderw(s.bufs[s.queue[0]], s.disk);
            After(s, Interrupt(true)).bufs == s.bufs[s.queue[0] := m.0] && After(s, Interrupt(true)).disk == m.1
  {
    var t := HeadInCall(s, strict);
  }

  lemma {:induction false} InterruptQueued(s: Sys, ok: bool, strict: bool, i: nat)
    requires Inv(s, strict) && 0 < i < |s.queue|
    ensures QueuedOk(After(s, Interrupt(ok)), s.queue[i])
  {
    assert QueuedOk(s, s.queue[i]) && QueuedOk(s, s.queue[0]);
    assert s.queue[0] != s.queue[i];
    var u :| 0 <= u < |s.threads| && s.threads[u].In? && s.threads[u].buf == s.queue[i];
    hide Inv;
    assert After(s, Interrupt(ok)).threads[u] == s.threads[u];
  }

  lemma {:induction false} InterruptThread(s: Sys, ok: bool, strict: bool, u: nat)
    requires Inv(s, strict) && s.queue != [] && !(strict && Fails(s, Interrupt(ok))) && u < |s.threads|
    ensures ThreadOk(After(s, Interrupt(ok)), After(s, Interrupt(ok)).threads[u], strict)
  {
    var w := HeadInCall(s, strict);
    assert ThreadOk(s, s.threads[u], strict);
    assert u != w ==> Apart(s, s.threads[w], s.threads[u], strict);
    assert s.device == Start(s.bufs[s.queue[0]]) && !Finished(s.bufs[s.queue[0]]) by { assert QueuedOk(s, s.queue[0]); }
    hide Inv;
    var r, h := After(s, Interrupt(ok)), s.queue[0];
    assert s.threads[u].In? && s.threads[u].buf != h ==> (s.threads[u].buf in s.queue <==> s.threads[u].buf in r.queue);
  }

  lemma {:induction false} InterruptApart(s: Sys, ok: bool, strict: bool, x: nat, y: nat)
    requires Inv(s, strict) && s.queue != [] && x < |s.threads| && y < |s.threads| && x != y
    ensures var r := After(s, Interrupt(ok)); Apart(r, r.threads[x], r.threads[y], strict)
  {
    assert Apart(s, s.threads[x], s.threads[y], strict) && QueuedOk(s, s.queue[0]);
    hide Inv;
  }

  /** The interrupt takes the head off and starts the next request, if there is one. */
  lemma {:induction false} InterruptShape(s: Sys, ok: bool, strict: bool)
    requires Inv(s, strict) && s.queue != []
    ensures var r := After(s, Interrupt(ok));
            |r.threads| == |s.threads| && r.queue == s.queue[1..] && r.called == r.done + r.queue &&
            (r.queue == [] ==> r.device == None) &&
            (r.queue != [] ==> r.queue[0] < |r.bufs| && r.device == Start(r.bufs[r.queue[0]]))
  {
    assert QueuedOk(s, s.queue[0]);
    if |s.queue| > 1 { assert QueuedOk(s, s.queue[1]); }
    assert s.done + s.queue == (s.done + [s.queue[0]]) + s.queue[1..];
  }

  lemma {:induction false} InterruptKeeps(s: Sys, ok: bool, strict: bool)
    requires Inv(s, strict) && s.queue != [] && !(strict && Fails(s, Interrupt(ok)))
    ensures Inv(After(s, Interrupt(ok)), strict)
  {
    hide ThreadOk, QueuedOk, Apart, After;
    var r := After(s, Interrupt(ok));
    InterruptShape(s, ok, strict);
    forall x, y | 0 <= x < |r.threads| && 0 <= y < |r.threads| && x != y
      ensures Apart(r, r.threads[x], r.threads[y], strict)
    {
      InterruptApart(s, ok, strict, x, y);
    }
    forall i | 0 <= i < |r.queue|
      ensures QueuedOk(r, r.queue[i])
    {
      InterruptQueued(s, ok, strict, i + 1);
    }
    forall u | 0 <= u < |r.threads|
      ensures ThreadOk(r, r.threads[u], strict)
    {
      InterruptThread(s, ok, strict, u);
    }
  }

  /** A failed request goes unseen: the buffer is finished and its bytes are not those of the sector. */
  lemma {:induction false} FailureUnseen(s: Sys, strict: bool)
    requires Inv(s, strict) && Fails(s, Interrupt(false))
    ensures var r := After(s, Interrupt(false));
            Finished(r.bufs[s.queue[0]]) && Address(r.bufs[s.queue[0]]) in r.disk &&
            r.bufs[s.queue[0]].data != r.disk[Address(r.bufs[s.queue[0]])] && !Inv(r, true)
  {
    var r := After(s, Interrupt(false));
    var t := HeadInCall(s, strict);
    assert r.threads[t].buf !in r.queue;
    assert !ThreadOk(r, r.threads[t], true);
  }

  /** The process returns only when its request is finished, else it sleeps again. */
  lemma {:induction false} LookKeeps(s: Sys, t: nat, strict: bool)
    requires Inv(s, strict) && Can(s, Look(t))
    ensures Inv(After(s, Look(t)), strict)
  {
    var r := After(s, Look(t));
    assert ThreadOk(s, s.threads[t], strict);
    forall i | 0 <= i < |r.queue|
      ensures QueuedOk(r, r.queue[i])
    {
      assert QueuedOk(s, s.queue[i]);
      var u :| 0 <= u < |s.threads| && s.threads[u].In? && s.threads[u].buf == s.queue[i];
      assert r.threads[u].In? && r.threads[u].buf == s.queue[i];
    }
    forall u | 0 <= u < |r.threads|
      ensures ThreadOk(r, r.threads[u], strict)
    {
      assert ThreadOk(s, s.threads[u], strict);
    }
    forall x, y | 0 <= x < |r.threads| && 0 <= y < |r.threads| && x != y
      ensures Apart(r, r.threads[x], r.threads[y], strict)
    {
      assert Apart(s, s.threads[x], s.threads[y], strict);
    }
  }

  lemma {:induction false} SpuriousKeeps(s: Sys, t: nat, strict: bool)
    requires Inv(s, strict) && Can(s, Spurious(t))
    ensures Inv(After(s, Spurious(t)), strict)
  {
    var r := After(s, Spurious(t));
    forall i | 0 <= i < |r.queue|
      ensures QueuedOk(r, r.queue[i])
    {
      assert QueuedOk(s, s.queue[i]);
      var u :| 0 <= u < |s.threads| && s.threads[u].In? && s.threads[u].buf == s.queue[i];
      assert r.threads[u].In? && r.threads[u].buf == s.queue[i];
    }
    forall u | 0 <= u < |r.threads|
      ensures ThreadOk(r, r.threads[u], strict)
    {
      assert ThreadOk(s, s.threads[u], strict);
    }
    forall x, y | 0 <= x < |r.threads| && 0 <= y < |r.threads| && x != y
      ensures Apart(r, r.threads[x], r.threads[y], strict)
    {
      assert Apart(s, s.threads[x], s.threads[y], strict);
    }
  }

  lemma {:induction false} UseKeeps(s: Sys, b: nat, to: Buf, strict: bool)
    requires Inv(s, strict) && Can(s, Use(b, to))
    ensures Inv(After(s, Use(b, to)), strict)
  {
    var r := After(s, Use(b, to));
    forall i | 0 <= i < |r.queue|
      ensures QueuedOk(r, r.queue[i])
    {
      assert QueuedOk(s, s.queue[i]);
      var u :| 0 <= u < |s.threads| && s.threads[u].In? && s.threads[u].buf == s.queue[i];
      assert r.threads[u].In? && r.threads[u].buf == s.queue[i];
    }
    forall u | 0 <= u < |r.threads|
      ensures ThreadOk(r, r.threads[u], strict)
    {
      assert ThreadOk(s, s.threads[u], strict);
      assert s.threads[u].In? ==> InCall(s, s.threads[u].buf);
    }
    forall x, y | 0 <= x < |r.threads| && 0 <= y < |r.threads| && x != y
      ensures Apart(r, r.threads[x], r.threads[y], strict)
    {
      assert Apart(s, s.threads[x], s.threads[y], strict);
      assert ThreadOk(s, s.threads[x], strict);
      assert ThreadOk(s, s.threads[y], strict);
      assert s.threads[x].In? ==> InCall(s, s.threads[x].buf);
      assert s.threads[y].In? ==> InCall(s, s.threads[y].buf);
    }
    if s.queue != [] { assert QueuedOk(s, s.queue[0]); }
  }

  lemma {:induction false} AliasBreaks(s: Sys, t: nat, b: nat)
    requires Inv(s, true) && Can(s, Call(t, b)) && Aliases(s, Call(t, b))
    ensures !Inv(After(s, Call(t, b)), true)
  {
    var i: nat :| i < |s.bufs| && InCall(s, i) && Address(s.bufs[i]) == Address(s.bufs[b]);
    var u :| 0 <= u < |s.threads| && s.threads[u].In? && s.threads[u].buf == i;
    var r := After(s, Call(t, b));
    assert !Apart(r, r.threads[t], r.threads[u], true);
  }

  lemma {:induction false} StepKeepsInv(s: Sys, a: Action, strict: bool)
    requires Inv(s, strict) && Can(s, a)
    ensures Inv(After(s, a), strict) <==> !(strict && (Fails(s, a) || Aliases(s, a)))
  {
    hide Inv, After;
    match a
    case Call(t, b) =>
      if strict && Aliases(s, a) { AliasBreaks(s, t, b); } else { CallKeeps(s, t, b, strict); }
    case Interrupt(ok) =>
      if strict && Fails(s, a) { FailureUnseen(s, strict); } else { IntrKeeps(s, ok, strict); }
    case Spurious(t) => SpuriousKeeps(s, t, strict);
    case Look(t) => LookKeeps(s, t, strict);
    case Use(b, to) => UseKeeps(s, b, to, strict);
  }

  lemma {:induction false} IntrKeeps(s: Sys, ok: bool, strict: bool)
    requires Inv(s, strict) && !(strict && Fails(s, Interrupt(ok)))
    ensures Inv(After(s, Interrupt(ok)), strict)
  {
    if s.queue != [] { InterruptKeeps(s, ok, strict); }
  }

  // ----- runs -----

  predicate CanRun(s: Sys, steps: seq<Action>)
    decreases |steps|
  {
    steps == [] || (Can(s, steps[0]) && CanRun(After(s, steps[0]), steps[1..]))
  }

  function RunOf(s: Sys, steps: seq<Action>): Sys
    requires CanRun(s, steps)
    decreases |steps|
  {
    if steps == [] then s else RunOf(After(s, steps[0]), steps[1..])
  }

  /** No request of the run fails. */
  predicate NeverFails(s: Sys, steps: seq<Action>)
    requires CanRun(s, steps)
    decreases |steps|
  {
    steps == [] || (!Fails(s, steps[0]) && NeverFails(After(s, steps[0]), steps[1..]))
  }

  /** No two calls in progress are alike to the driver. */
  predicate NeverAliases(s: Sys, steps: seq<Action>)
    requires CanRun(s, steps)
    decreases |steps|
  {
    steps == [] || (!Aliases(s, steps[0]) && NeverAliases(After(s, steps[0]), steps[1..]))
  }

  function Fresh(bufs: seq<Buf>, disk: map<Lba, Block>, threads: nat): Sys {
    Sys(bufs, [], None, disk, seq(threads, _ => Out), [], [])
  }

  lemma {:induction false} RunKeepsInv(s: Sys, steps: seq<Action>, strict: bool)
    requires Inv(s, strict) && CanRun(s, steps) && (strict ==> NeverFails(s, steps) && NeverAliases(s, steps))
    ensures Inv(RunOf(s, steps), strict)
    decreases |steps|
  {
    hide Inv;
    if steps != [] {
      StepKeepsInv(s, steps[0], strict);
      RunKeepsInv(After(s, steps[0]), steps[1..], strict);
    }
  }

  /** Through any run requests finish in the order of the calls, a buffer is queued once, busy and unfinished,
      the device works for the head of the queue, and a process asleep has its buffer still queued. */
  lemma {:induction false} RequestsInOrder(bufs: seq<Buf>, disk: map<Lba, Block>, threads: nat, steps: seq<Action>,
                                           s: Sys)
    requires CanRun(Fresh(bufs, disk, threads), steps) && s == RunOf(Fresh(bufs, disk, threads), steps)
    ensures s.called == s.done + s.queue
    ensures forall i, j :: 0 <= i < j < |s.queue| ==> s.queue[i] != s.queue[j]
    ensures forall i :: 0 <= i < |s.queue| ==>
      s.queue[i] < |s.bufs| && s.bufs[s.queue[i]].busy && !Finished(s.bufs[s.queue[i]])
    ensures s.device == if s.queue == [] then None else Start(s.bufs[s.queue[0]])
    ensures forall t :: 0 <= t < |s.threads| && s.threads[t].In? && s.threads[t].asleep ==> s.threads[t].buf in s.queue
  {
    RunKeepsInv(Fresh(bufs, disk, threads), steps, false);
    forall i | 0 <= i < |s.queue|
      ensures QueuedOk(s, s.queue[i])
    {
    }
    forall t | 0 <= t < |s.threads|
      ensures ThreadOk(s, s.threads[t], false)
    {
    }
  }

  /** Through any run without a failed request and without calls alike to the driver: the process that returns finds
      its buffer valid, clean and equal to its sector. */
  lemma {:induction false} ReturnsSynced(bufs: seq<Buf>, disk: map<Lba, Block>, threads: nat, steps: seq<Action>,
                                         s: Sys, t: nat)
    requires CanRun(Fresh(bufs, disk, threads), steps) && s == RunOf(Fresh(bufs, disk, threads), steps)
    requires NeverFails(Fresh(bufs, disk, threads), steps) && NeverAliases(Fresh(bufs, disk, threads), steps)
    requires Can(s, Look(t)) && After(s, Look(t)).threads[t] == Out
    ensures var b := s.threads[t].buf;
            b < |s.bufs| && s.bufs[b].valid && !s.bufs[b].dirty && Address(s.bufs[b]) in s.disk &&
            s.bufs[b].data == s.disk[Address(s.bufs[b])]
  {
    RunKeepsInv(Fresh(bufs, disk, threads), steps, true);
    assert ThreadOk(s, s.threads[t], true);
    assert s.threads[t].buf !in s.queue;
  }

  lemma {:induction false} FreshInv(bufs: seq<Buf>, disk: map<Lba, Block>, threads: nat, strict: bool)
    ensures Inv(Fresh(bufs, disk, threads), strict)
  {
  }

  // ----- the synchronous driver -----

  /** The queued requests, as the buffers stand. */
  function Pending(s: Sys): (r: seq<Buf>)
    requires forall i :: 0 <= i < |s.queue| ==> s.queue[i] < |s.bufs|
    ensures |r| == |s.queue| && forall i :: 0 <= i < |r| ==> r[i] == s.bufs[s.queue[i]]
  {
    seq(|s.queue|, i requires 0 <= i < |s.queue| => s.bufs[s.queue[i]])
  }

  /** The request a step hands in, as the caller's buffer is at that moment. */
  function CallOf(s: Sys, a: Action): seq<Buf>
    requires Can(s, a)
  {
    if a.Call? then [s.bufs[a.b]] else []
  }

  /** The request a step finishes, as its buffer was. */
  function ServedBy(s: Sys, a: Action): seq<Buf>
    requires Can(s, a)
  {
    if a.Interrupt? && s.queue != [] && s.queue[0] < |s.bufs| then [s.bufs[s.queue[0]]] else []
  }

  function Calls(s: Sys, steps: seq<Action>): seq<Buf>
    requires CanRun(s, steps)
    decreases |steps|
  {
    if steps == [] then [] else CallOf(s, steps[0]) + Calls(After(s, steps[0]), steps[1..])
  }

  function Served(s: Sys, steps: seq<Action>): seq<Buf>
    requires CanRun(s, steps)
    decreases |steps|
  {
    if steps == [] then [] else ServedBy(s, steps[0]) + Served(After(s, steps[0]), steps[1..])
  }

  /** What kernel/memide.c makes of the disk, request by request. */
  function MemRun(disk: map<Lba, Block>, requests: seq<Buf>): map<Lba, Block>
    decreases |requests|
  {
    if requests == [] then disk
    else MemRun(if Address(requests[0]) in disk then MemIderw(requests[0], disk).1 else disk, requests[1..])
  }

  lemma {:induction false} QueueIn(s: Sys, strict: bool)
    requires Inv(s, strict)
    ensures forall i :: 0 <= i < |s.queue| ==> s.queue[i] < |s.bufs| && InCall(s, s.queue[i])
    ensures forall i, j :: 0 <= i < j < |s.queue| ==> s.queue[i] != s.queue[j]
  {
    forall i | 0 <= i < |s.queue| ensures s.queue[i] < |s.bufs| && InCall(s, s.queue[i]) {
      assert QueuedOk(s, s.queue[i]);
    }
  }

  /** Requests are finished as they were handed in, and in that order. */
  lemma {:induction false} ServedInOrder(s: Sys, a: Action, strict: bool)
    requires Inv(s, strict) && Can(s, a) && Inv(After(s, a), strict)
    ensures forall i :: 0 <= i < |s.queue| ==> s.queue[i] < |s.bufs|
    ensures forall i :: 0 <= i < |After(s, a).queue| ==> After(s, a).queue[i] < |After(s, a).bufs|
    ensures ServedBy(s, a) + Pending(After(s, a)) == Pending(s) + CallOf(s, a)
  {
    hide Inv, WakeBuf, Complete, Start, Finished;
    QueueIn(s, strict);
    QueueIn(After(s, a), strict);
    if a.Interrupt? && s.queue != [] {
      assert Pending(s) == [s.bufs[s.queue[0]]] + Pending(After(s, a));
    }
  }

  /** A request that does not fail changes the disk as the memory disk does. */
  lemma {:induction false} ServedIsMem(s: Sys, a: Action)
    requires Inv(s, false) && Can(s, a) && !Fails(s, a)
    ensures After(s, a).disk == MemRun(s.disk, ServedBy(s, a))
  {
    if a.Interrupt? && s.queue != [] {
      var t := HeadInCall(s, false);
      assert s.device == Start(s.bufs[s.queue[0]]);
      hide Inv;
      var b := s.bufs[s.queue[0]];
      assert [b][1..] == [];
      assert MemRun(s.disk, [b]) == MemIderw(b, s.disk).1;
    }
  }

  lemma {:induction false} NoRequests(disk: map<Lba, Block>)
    ensures MemRun(disk, []) == disk
  {
  }

  lemma {:induction false} MemRunConcat(disk: map<Lba, Block>, a: seq<Buf>, b: seq<Buf>)
    ensures MemRun(disk, a + b) == MemRun(MemRun(disk, a), b)
    decreases |a|
  {
    if a == [] {
      assert a + b == b;
    } else {
      assert (a + b)[0] == a[0] && (a + b)[1..] == a[1..] + b;
      MemRunConcat(if Address(a[0]) in disk then MemIderw(a[0], disk).1 else disk, a[1..], b);
    }
  }

  lemma {:induction false} RunIsMemRun(s: Sys, steps: seq<Action>)
    requires Inv(s, false) && CanRun(s, steps) && NeverFails(s, steps)
    ensures Inv(RunOf(s, steps), false)
    ensures forall i :: 0 <= i < |s.queue| ==> s.queue[i] < |s.bufs|
    ensures forall i :: 0 <= i < |RunOf(s, steps).queue| ==> RunOf(s, steps).queue[i] < |RunOf(s, steps).bufs|
    ensures RunOf(s, steps).disk == MemRun(s.disk, Served(s, steps))
    ensures Served(s, steps) + Pending(RunOf(s, steps)) == Pending(s) + Calls(s, steps)
    decreases |steps|
  {
    hide Inv, After, Can, Fails, ServedBy, CallOf, Pending, MemRun;
    QueueIn(s, false);
    NoRequests(s.disk);
    if steps != [] {
      var t, rest := After(s, steps[0]), steps[1..];
      StepKeepsInv(s, steps[0], false);
      RunIsMemRun(t, rest);
      ServedInOrder(s, steps[0], false);
      ServedIsMem(s, steps[0]);
      MemRunConcat(s.disk, ServedBy(s, steps[0]), Served(t, rest));
      Regroup(ServedBy(s, steps[0]), Served(t, rest), Pending(RunOf(t, rest)), Pending(s), Pending(t),
              CallOf(s, steps[0]), Calls(t, rest));
    }
  }

  lemma {:induction false} Regroup(x: seq<Buf>, y: seq<Buf>, r: seq<Buf>, p: seq<Buf>, q: seq<Buf>, u: seq<Buf>,
                                   v: seq<Buf>)
    requires x + q == p + u && y + r == q + v
    ensures (x + y) + r == p + (u + v)
  {
    assert (x + y) + r == x + (y + r) == x + (q + v) == (x + q) + v == (p + u) + v == p + (u + v);
  }

  /** Through any run without a failed request the disk is what the memory disk, called with the same requests in the
      same order, makes of it: of those calls, all but the ones still pending. */
  lemma {:induction false} DriverIsSynchronous(bufs: seq<Buf>, disk: map<Lba, Block>, threads: nat, steps: seq<Action>,
                                               s: Sys)
    requires CanRun(Fresh(bufs, disk, threads), steps) && s == RunOf(Fresh(bufs, disk, threads), steps)
    requires NeverFails(Fresh(bufs, disk, threads), steps)
    ensures var calls := Calls(Fresh(bufs, disk, threads), steps);
            && |s.queue| <= |calls| && (forall i :: 0 <= i < |s.queue| ==> s.queue[i] < |s.bufs|)
            && calls[|calls| - |s.queue|..] == Pending(s)
            && s.disk == MemRun(disk, calls[..|calls| - |s.queue|])
  {
    hide Inv, CanRun, RunOf, Calls, Served, MemRun, NeverFails;
    var s0 := Fresh(bufs, disk, threads);
    FreshInv(bufs, disk, threads, false);
    RunIsMemRun(s0, steps);
    var calls, served := Calls(s0, steps), Served(s0, steps);
    assert Pending(s0) == [];
    assert Pending(s0) + calls == calls;
    assert calls == served + Pending(s);
    assert calls[..|served|] == served && calls[|served|..] == Pending(s);
  }

  /** A failed read goes unseen from the first call on: one process, one buffer that holds nothing yet, one interrupt
      with an error. */
  lemma {:induction false} FailureReached(x: Block, y: Block) returns (steps: seq<Action>)
    requires x != y
    ensures var s0 := Fresh([Buf(true, false, false, 1, 7, x)], map[Lba(1, 7) := y], 1);
            && CanRun(s0, steps) && !NeverFails(s0, steps)
            && var s := RunOf(s0, steps);
               && |s.bufs| == |s.threads| == 1 && Can(s, Look(0)) && After(s, Look(0)).threads[0] == Out
               && Finished(s.bufs[0]) && Address(s.bufs[0]) in s.disk && s.bufs[0].data != s.disk[Address(s.bufs[0])]
  {
    var b := Buf(true, false, false, 1, 7, x);
    var s0 := Fresh([b], map[Lba(1, 7) := y], 1);
    steps := [Call(0, 0), Interrupt(false)];
    assert s0.threads == [Out];
    assert !InCall(s0, 0);
    assert Can(s0, Call(0, 0));
    var s1 := After(s0, Call(0, 0));
    assert s1 == Sys([b], [0], Read(Lba(1, 7)), map[Lba(1, 7) := y], [In(0, true)], [0], []);
    assert Fails(s1, Interrupt(false));
    var s2 := After(s1, Interrupt(false));
    assert s2.bufs == [b.(valid := true)] && s2.threads == [In(0, false)] && s2.disk == s1.disk;
    assert steps[1..] == [Interrupt(false)] && steps[1..][1..] == [];
    assert CanRun(s2, []) && RunOf(s2, []) == s2;
    assert CanRun(s1, [Interrupt(false)]) && RunOf(s1, [Interrupt(false)]) == s2;
    assert RunOf(s0, steps) == s2;
  }

  // ----- sectors the driver can tell apart -----

  predicate InRange(b: Buf) {
    b.dev < 2 && b.sector < 0x1000_0000
  }

  /** All buffers, and what their owners make of them, are for sectors of two disks of 2^28 sectors. */
  predicate AllInRange(bufs: seq<Buf>, steps: seq<Action>) {
    && (forall i :: 0 <= i < |bufs| ==> InRange(bufs[i]))
    && (forall i :: 0 <= i < |steps| && steps[i].Use? ==> InRange(steps[i].to))
  }

  /** Then no two calls are alike to the driver. */
  lemma {:induction false} RangeNeverAliases(s: Sys, steps: seq<Action>)
    requires CanRun(s, steps) && AllInRange(s.bufs, steps)
    ensures NeverAliases(s, steps)
    decreases |steps|
  {
    hide InCall, WakeBuf, Start;
    if steps != [] {
      var t := After(s, steps[0]);
      forall i | 0 <= i < |t.bufs| ensures InRange(t.bufs[i]) {
        assert InRange(s.bufs[i]);
      }
      RangeNeverAliases(t, steps[1..]);
    }
  }

  /** A read of one sector and a write of z to another, 2^28 apart, after k of the steps below. */
  function AliasState(x: Block, y: Block, z: Block, k: nat): Sys {
    var a, b := Buf(true, false, false, 0, 7, x), Buf(true, true, true, 0, 7 + 0x1000_0000, z);
    var c, disk := a.(data := y, valid := true), map[Lba(0, 7) := y];
    if k == 0 then Fresh([a, b], disk, 2)
    else if k == 1 then Sys([a, b], [0], Read(Lba(0, 7)), disk, [In(0, true), Out], [0], [])
    else if k == 2 then Sys([a, b], [0, 1], Read(Lba(0, 7)), disk, [In(0, true), In(1, true)], [0, 1], [])
    else if k == 3 then Sys([c, b], [1], Write(Lba(0, 7), z), disk, [In(0, false), In(1, true)], [0, 1], [0])
    else Sys([c, b.(dirty := false)], [], None, map[Lba(0, 7) := z], [In(0, false), In(1, false)], [0, 1], [0, 1])
  }

  const ALIAS_STEPS := [Call(0, 0), Call(1, 1), Interrupt(true), Interrupt(true)]

  lemma {:induction false} AliasCalls(x: Block, y: Block, z: Block, k: nat)
    requires k < 2
    ensures Can(AliasState(x, y, z, k), ALIAS_STEPS[k]) && !Fails(AliasState(x, y, z, k), ALIAS_STEPS[k])
    ensures After(AliasState(x, y, z, k), ALIAS_STEPS[k]) == AliasState(x, y, z, k + 1)
  {
    var s := AliasState(x, y, z, k);
    assert k == 0 ==> s.threads == [Out, Out];
    assert !InCall(s, k);
  }

  lemma {:induction false} AliasInterrupts(x: Block, y: Block, z: Block, k: nat)
    requires 2 <= k < 4
    ensures Can(AliasState(x, y, z, k), ALIAS_STEPS[k]) && !Fails(AliasState(x, y, z, k), ALIAS_STEPS[k])
    ensures After(AliasState(x, y, z, k), ALIAS_STEPS[k]) == AliasState(x, y, z, k + 1)
  {
    var s, r := AliasState(x, y, z, k), AliasState(x, y, z, k + 1);
    assert WakeBuf(s.threads, s.queue[0]) == r.threads;
    assert s.queue[1..] == r.queue;
  }

  lemma {:induction false} AliasRun(x: Block, y: Block, z: Block, k: nat)
    requires k <= 4
    ensures var s, steps := AliasState(x, y, z, k), ALIAS_STEPS[k..];
            CanRun(s, steps) && NeverFails(s, steps) && RunOf(s, steps) == AliasState(x, y, z, 4)
    decreases 4 - k
  {
    hide Can, After, Fails, AliasState;
    if k < 4 {
      if k < 2 { AliasCalls(x, y, z, k); } else { AliasInterrupts(x, y, z, k); }
      AliasRun(x, y, z, k + 1);
      assert ALIAS_STEPS[k..][0] == ALIAS_STEPS[k] && ALIAS_STEPS[k..][1..] == ALIAS_STEPS[k + 1..];
    }
  }

  /** Sectors 2^28 apart are one to the driver: a process that has read the one returns with bytes that the write of the
      other has replaced on the disk in the meantime. */
  lemma {:induction false} AliasReached(x: Block, y: Block, z: Block)
    requires y != z
    ensures var s0 := AliasState(x, y, z, 0);
            && s0 == Fresh(s0.bufs, s0.disk, 2) && CanRun(s0, ALIAS_STEPS) && NeverFails(s0, ALIAS_STEPS)
            && var s := RunOf(s0, ALIAS_STEPS);
               && |s.bufs| == |s.threads| == 2 && Can(s, Look(0)) && After(s, Look(0)).threads[0] == Out
               && Finished(s.bufs[0]) && Address(s.bufs[0]) in s.disk && s.bufs[0].data != s.disk[Address(s.bufs[0])]
  {
    AliasRun(x, y, z, 0);
    assert ALIAS_STEPS[0..] == ALIAS_STEPS;
    hide RunOf, CanRun, NeverFails;
  }
}
