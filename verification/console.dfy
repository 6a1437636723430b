/** Console input of kernel/console.c: lines that can be edited until they are committed. */
module Console {
  import opened Bytes
  import opened Ring

  const INPUT_BUF := 128
  const NEWLINE: byte := 10
  const RETURN: byte := 13
  const EOF: byte := 4        // control-D
  const KILL: byte := 21      // control-U
  const BACKSPACE: byte := 8  // control-H
  const DELETE: byte := 127
  const LIST: byte := 16      // control-P
  const REBOOT: byte := 26    // control-Z

  /** What a key is for: the line, the list of processes, or a new start. */
  datatype KeyUse = ForLine | ForList | ForReboot

  predicate EndsLine(c: byte) {
    c == NEWLINE || c == EOF
  }

  /** Keys that go into the line. */
  predicate Printing(c: byte) {
    c != KILL && c != BACKSPACE && c != DELETE && c != LIST && c != REBOOT
  }

  predicate NoLineEnd(s: seq<byte>) {
    forall i :: 0 <= i < |s| ==> !EndsLine(s[i])
  }

  class Input {
    var buf: seq<byte>
    var r: nat
    var w: nat
    var e: nat

    /** r <= w <= e <= r + INPUT_BUF, in 32-bit arithmetic, and the line being edited has no end yet. */
    ghost predicate Valid()
      reads this
    {
      && |buf| == INPUT_BUF && r < WRAP && w < WRAP && e < WRAP
      && Count(r, w) <= Count(r, e) <= INPUT_BUF
      && NoLineEnd(Queued(buf, w, Count(w, e)))
    }

    /** Bytes that a reader can have. */
    ghost function Committed(): seq<byte>
      requires Valid()
      reads this
    {
      Queued(buf, r, Count(r, w))
    }

    /** Bytes of the line being edited. */
    ghost function Editing(): seq<byte>
      requires Valid()
      reads this
    {
      Queued(buf, w, Count(w, e))
    }

    constructor (b: seq<byte>)
      requires |b| == INPUT_BUF
      ensures Valid() && Committed() == [] && Editing() == []
    {
      buf, r, w, e := b, 0, 0, 0;
    }

    /** The last byte of the line taken back. */
    method Erase()
      requires Valid() && e != w
      modifies this`e
      ensures Valid() && Committed() == old(Committed())
      ensures Editing() + [old(Editing()[|Editing()| - 1])] == old(Editing())
    {
      Parts(buf, r, w, e);
      ghost var line := Editing();
      e := Dec(e);
      assert Count(w, e) == |line| - 1 && Count(r, e) == Count(r, w) + Count(w, e);
      assert Queued(buf, w, Count(w, e)) == line[..|line| - 1];
    }

    /** consoleintr for one byte. */
    method Key(c: byte) returns (use: KeyUse)
      requires Valid()
      modifies this
      ensures use == if c == REBOOT then ForReboot else if c == LIST then ForList else ForLine
      ensures Valid() && old(Committed()) <= Committed()
      ensures c == KILL ==> Committed() == old(Committed()) && Editing() == []
      ensures c == BACKSPACE || c == DELETE ==> Committed() == old(Committed()) && Editing() == Shorter(old(Editing()))
      ensures !Printing(c) && c != KILL && c != BACKSPACE && c != DELETE ==>
        Committed() == old(Committed()) && Editing() == old(Editing())
      ensures Printing(c) ==>
        Committed() + Editing() == old(Committed() + Editing()) + Accepted(c, old(|Committed()| + |Editing()|))
      ensures Printing(c) && Accepted(c, old(|Committed()| + |Editing()|)) == [] ==> Committed() == old(Committed())
      ensures Printing(c) && Accepted(c, old(|Committed()| + |Editing()|)) != [] ==>
                (Editing() == [] <==>
                   || EndsLine(Accepted(c, old(|Committed()| + |Editing()|))[0])
                   || old(|Committed()| + |Editing()|) == INPUT_BUF - 1)
    {
      if c == REBOOT { return ForReboot; }
      if c == LIST { return ForList; }
      use := ForLine;
      if c == KILL {
        while e != w && buf[Dec(e) % INPUT_BUF] != NEWLINE
          invariant Valid() && Committed() == old(Committed()) && buf == old(buf) && w == old(w)
          decreases Count(w, e)
        {
          Erase();
        }
        if e != w { LastOf(); }
      } else if c == BACKSPACE || c == DELETE {
        if e != w {
          Erase();
        }
      } else {
        Type(c);
      }
    }

    /** Where the last byte of the line is. */
    lemma LastOf()
      requires Valid() && e != w
      ensures buf[Dec(e) % INPUT_BUF] == Editing()[|Editing()| - 1] && !EndsLine(buf[Dec(e) % INPUT_BUF])
    {
      EndSlot(w, Dec(e), INPUT_BUF);
    }

    /** consoleintr's default case. */
    method Type(key: byte)
      requires Valid()
      modifies this
      ensures Valid() && old(Committed()) <= Committed()
      ensures var more := Accepted(key, old(|Committed()| + |Editing()|));
              Committed() + Editing() == old(Committed() + Editing()) + more &&
              (more == [] ==> Committed() == old(Committed()) && Editing() == old(Editing())) &&
              (more != [] ==>
                (Editing() == [] <==> EndsLine(more[0]) || old(|Committed()| + |Editing()|) == INPUT_BUF - 1) &&
                              (Editing() != [] ==> Committed() == old(Committed())))
    {
      Parts(buf, r, w, e);
      if key != 0 && Count(r, e) < INPUT_BUF {
        var c: byte := if key == RETURN then NEWLINE else key;
        Typed(buf, r, w, e, c);
        hide Queued, Count;
        buf := buf[e % INPUT_BUF := c];
        e := Inc(e);
        if c == NEWLINE || c == EOF || e == (r + INPUT_BUF) % WRAP {
          w := e;
        }
      }
    }

    /** The next committed byte. */
    method Get() returns (c: byte)
      requires Valid() && r != w
      modifies this`r
      ensures Valid() && [c] + Committed() == old(Committed()) && Editing() == old(Editing()) && r == Inc(old(r))
    {
      Parts(buf, r, w, e);
      TakeFirst(buf, r, w);
      TakeFirst(buf, r, e);
      c := buf[r % INPUT_BUF];
      hide Queued;
      r := Inc(r);
    }

    /** One turn of consoleread: the next byte, or why there is none. */
    method ReadOne(any: bool) returns (c: byte, stop: Stop)
      requires Valid()
      modifies this`r
      ensures Valid() && Editing() == old(Editing())
      ensures stop == (if old(Committed()) == [] then Starved else if old(Committed())[0] == EOF then End
                       else if old(Committed())[0] == NEWLINE then Line else Full)
      ensures stop == Line || stop == Full ==> c == old(Committed())[0] && Committed() == old(Committed())[1..]
      ensures stop == Starved ==> Committed() == []
      ensures stop == End ==> Committed() == if any then old(Committed()) else old(Committed())[1..]
    {
      hide Queued, Count;
      Empty(r, w);
      if r == w { return 0, Starved; }
      ghost var all := Committed();
      c := Get();
      assert all == [c] + Committed();
      if c == EOF {
        if any {
          r := Dec(r);
        }
        return c, End;
      }
      stop := if c == NEWLINE then Line else Full;
    }

    /** consoleread from its start or from a sleep on, to its end or the next sleep. `n` bytes are still wanted, and
        `any` says that the reader has some already. */
    method Read(n: nat, any: bool, killed: bool) returns (dst: seq<byte>, o: Outcome)
      requires Valid()
      modifies this`r
      ensures Valid() && Editing() == old(Editing())
      ensures var t := Consume(old(Committed()), n, any);
              && dst == t.dst && Committed() == old(Committed())[t.used..]
              && o == if t.stop != Starved then Returns else if killed then Fails else Sleeps
    {
      hide Queued, Count, Consume, Reading, Input.Valid, Input.Committed, Input.Editing;
      dst := [];
      ghost var all := Committed();
      ReadStart(all, n, any);
      while |dst| < n
        invariant Valid() && Editing() == old(Editing()) && |dst| <= n && Reading(all, n, any, dst, Committed())
      {
        ghost var left := Committed();
        if left == [] || left[0] == EOF || left[0] == NEWLINE {
          ReadStops(all, n, any, dst, left);
        } else {
          ReadNext(all, n, any, dst, left);
        }
        var c, stop := ReadOne(any || dst != []);
        if stop == Starved { return dst, if killed then Fails else Sleeps; }
        if stop == End { return dst, Returns; }
        dst := dst + [c];
        if stop == Line { return dst, Returns; }
      }
      ReadStops(all, n, any, dst, Committed());
      o := Returns;
    }
  }

  lemma {:induction false} Empty(r: nat, w: nat)
    requires r < WRAP && w < WRAP
    ensures r == w <==> Count(r, w) == 0
  {
  }

  datatype Outcome = Returns | Sleeps | Fails

  /** Why a read stops: it has its count, a line, an end of file, or there is nothing left. */
  datatype Stop = Full | Line | End | Starved

  datatype Taken = Taken(dst: seq<byte>, used: nat, stop: Stop)

  /** What a read that wants n bytes takes from committed bytes. An end of file is used up only by a read that has
      nothing else. */
  function Consume(all: seq<byte>, n: nat, any: bool): (t: Taken)
    ensures |t.dst| <= n && |t.dst| <= t.used <= |all| && t.used <= |t.dst| + 1
    decreases |all|
  {
    if n == 0 then Taken([], 0, Full)
    else if all == [] then Taken([], 0, Starved)
    else if all[0] == EOF then Taken([], if any then 0 else 1, End)
    else if all[0] == NEWLINE then Taken([NEWLINE], 1, Line)
    else Then([all[0]], Consume(all[1..], n - 1, true))
  }

  /** dst taken first, then t. */
  function Then(dst: seq<byte>, t: Taken): Taken {
    Taken(dst + t.dst, |dst| + t.used, t.stop)
  }

  lemma {:induction false} ConsumeStep(all: seq<byte>, n: nat, any: bool)
    ensures Consume(all, n, any) ==
            if n == 0 then Taken([], 0, Full)
            else if all == [] then Taken([], 0, Starved)
            else if all[0] == EOF then Taken([], if any then 0 else 1, End)
            else if all[0] == NEWLINE then Taken([NEWLINE], 1, Line)
            else Then([all[0]], Consume(all[1..], n - 1, true))
  {
  }

  /** With dst read of n bytes, left is what a read of all the committed bytes goes on with. */
  ghost predicate Reading(all: seq<byte>, n: nat, any: bool, dst: seq<byte>, left: seq<byte>) {
    && |dst| <= n && |dst| <= |all| && left == all[|dst|..]
    && Consume(all, n, any) == Then(dst, Consume(left, n - |dst|, any || dst != []))
  }

  lemma {:induction false} ReadStart(all: seq<byte>, n: nat, any: bool)
    ensures Reading(all, n, any, [], all)
  {
    hide Consume;
    assert all[0..] == all;
  }

  lemma {:induction false} ReadNext(all: seq<byte>, n: nat, any: bool, dst: seq<byte>, left: seq<byte>)
    requires Reading(all, n, any, dst, left) && |dst| < n && left != [] && left[0] != EOF && left[0] != NEWLINE
    ensures Reading(all, n, any, dst + [left[0]], left[1..])
  {
    hide Consume;
    ConsumeStep(left, n - |dst|, any || dst != []);
    ThenThen(dst, [left[0]], Consume(left[1..], n - |dst| - 1, true));
    assert left[1..] == all[|dst| + 1..];
  }

  lemma {:induction false} ReadStops(all: seq<byte>, n: nat, any: bool, dst: seq<byte>, left: seq<byte>)
    requires Reading(all, n, any, dst, left) && (|dst| == n || left == [] || left[0] == EOF || left[0] == NEWLINE)
    ensures var t := Consume(all, n, any);
            if |dst| == n then t.dst == dst && t.stop == Full && all[t.used..] == left
            else if left == [] then t.dst == dst && t.stop == Starved && all[t.used..] == left
            else if left[0] == EOF then
              t.dst == dst && t.stop == End && all[t.used..] == if any || dst != [] then left else left[1..]
            else t.dst == dst + [left[0]] && t.stop == Line && all[t.used..] == left[1..]
  {
    hide Consume;
    ConsumeStep(left, n - |dst|, any || dst != []);
    assert left != [] ==> left[1..] == all[|dst| + 1..];
  }

  /** The bytes are the committed ones in order, without an end of file, and only the last can end a line. */
  lemma {:induction false} ConsumeMeans(all: seq<byte>, n: nat, any: bool)
    ensures var t := Consume(all, n, any);
            && t.dst == all[..|t.dst|] && EOF !in t.dst && (t.dst != [] ==> NoLineEnd(t.dst[..|t.dst| - 1]))
            && (t.stop == Line <==> t.dst != [] && t.dst[|t.dst| - 1] == NEWLINE)
            && (t.stop == Starved <==> |t.dst| < n && t.stop != Line && |t.dst| == |all|)
            && (t.stop == End <==> |t.dst| < n && t.stop != Line && |t.dst| < |all|)
            && (t.stop == End ==> all[|t.dst|] == EOF)
            && t.used == |t.dst| + (if t.stop == End && !any && t.dst == [] then 1 else 0)
    decreases |all|
  {
    hide Consume;
    ConsumeStep(all, n, any);
    if n > 0 && all != [] && all[0] != EOF && all[0] != NEWLINE {
      var t, u := Consume(all[1..], n - 1, true), Consume(all, n, any);
      ConsumeMeans(all[1..], n - 1, true);
      assert u.dst == [all[0]] + t.dst && all[..|t.dst| + 1] == [all[0]] + all[1..][..|t.dst|];
      assert t.dst != [] ==> u.dst[..|t.dst|] == [all[0]] + t.dst[..|t.dst| - 1];
    }
  }

  /** A read that sleeps and goes on when more is committed takes what a read of it all at once would. */
  lemma {:induction false} SleepIsUnseen(a: seq<byte>, b: seq<byte>, n: nat, any: bool)
    requires Consume(a, n, any).stop == Starved
    ensures var t := Consume(a, n, any);
            && |t.dst| == t.used == |a| && |a| < n
            && Consume(a + b, n, any) == Then(t.dst, Consume(b, n - |a|, any || t.dst != []))
    decreases |a|
  {
    hide Consume;
    ConsumeStep(a, n, any);
    if a == [] {
      assert a + b == b;
    } else {
      ConsumeStep(a + b, n, any);
      assert (a + b)[0] == a[0] && (a + b)[1..] == a[1..] + b;
      SleepIsUnseen(a[1..], b, n - 1, true);
      ThenThen([a[0]], Consume(a[1..], n - 1, true).dst, Consume(b, n - |a|, true));
    }
  }

  lemma {:induction false} ThenThen(x: seq<byte>, y: seq<byte>, t: Taken)
    ensures Then(x, Then(y, t)) == Then(x + y, t)
  {
    assert x + (y + t.dst) == x + y + t.dst;
  }

  /** A byte added at the edit index: the committed bytes stay, the line grows; committing makes all of it committed. */
  lemma {:induction false} Typed(buf: seq<byte>, r: nat, w: nat, e: nat, c: byte)
    requires |buf| == INPUT_BUF && r < WRAP && w < WRAP && e < WRAP && Count(r, w) <= Count(r, e) < INPUT_BUF
    ensures var b2, e2 := buf[e % INPUT_BUF := c], Inc(e);
            Count(r, e2) == Count(r, e) + 1 && Count(w, e2) == Count(w, e) + 1 &&
            Count(r, e) == Count(r, w) + Count(w, e) && Count(e2, e2) == 0 &&
            Queued(b2, r, Count(r, w)) == Queued(buf, r, Count(r, w)) &&
            Queued(b2, w, Count(w, e2)) == Queued(buf, w, Count(w, e)) + [c] &&
            Queued(b2, r, Count(r, e2)) == Queued(buf, r, Count(r, w)) + Queued(buf, w, Count(w, e)) + [c] &&
            (e2 == (r + INPUT_BUF) % WRAP <==> Count(r, e2) == INPUT_BUF)
  {
    var b2, e2 := buf[e % INPUT_BUF := c], Inc(e);
    Parts(buf, r, w, e);
    PutLast(buf, r, e, c);
    PutLast(buf, w, e, c);
    Parts(b2, r, w, e2);
    FullAt(r, e2);
    hide Queued;
    var n := Count(r, w);
    assert Queued(b2, r, n) == Queued(b2, r, Count(r, e2))[..n];
    assert Queued(buf, r, n) == (Queued(buf, r, Count(r, e)) + [c])[..n];
  }

  lemma {:induction false} FullAt(r: nat, e: nat)
    requires r < WRAP && e < WRAP
    ensures e == (r + INPUT_BUF) % WRAP <==> Count(r, e) == INPUT_BUF
  {
  }

  function Shorter(s: seq<byte>): seq<byte> {
    if s == [] then [] else s[..|s| - 1]
  }

  /** What a key adds to the n bytes that are there. */
  function Accepted(key: byte, n: nat): seq<byte> {
    if key == 0 || n >= INPUT_BUF then [] else [if key == RETURN then NEWLINE else key]
  }
}
