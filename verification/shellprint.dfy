/** Printing command trees, and reading them back. */
module ShellRoundTrip {
  import opened Shell

  // ----- legal trees -----

  predicate LegalWord(w: Word) {
    w.text != "" && w.left == 0 && forall i :: 0 <= i < |w.text| ==> WordChar(w.text[i])
  }

  predicate LegalRd(mode: int, fd: int) {
    (mode == O_RDONLY && fd == 0) || (mode == O_WRONLY + O_CREATE && fd == 1)
  }

  /** Words of word characters, fewer than MAXARGS arguments, the two kinds of redirection; no positions. */
  predicate Legal(t: Cmd) {
    match t
    case Exec(argv) => |argv| < MAXARGS && forall i :: 0 <= i < |argv| ==> LegalWord(argv[i])
    case Redir(cmd, file, mode, fd) => Legal(cmd) && LegalWord(file) && LegalRd(mode, fd)
    case Pipe(left, right) => Legal(left) && Legal(right)
    case List(left, right) => Legal(left) && Legal(right)
    case Back(cmd) => Legal(cmd)
  }

  /** The tree without positions. */
  function Plain(t: Cmd): Cmd {
    match t
    case Exec(argv) => Exec(PlainWords(argv))
    case Redir(cmd, file, mode, fd) => Redir(Plain(cmd), Word(file.text, 0), mode, fd)
    case Pipe(left, right) => Pipe(Plain(left), Plain(right))
    case List(left, right) => List(Plain(left), Plain(right))
    case Back(cmd) => Back(Plain(cmd))
  }

  function PlainWords(ws: seq<Word>): (r: seq<Word>)
    ensures |r| == |ws| && forall i :: 0 <= i < |ws| ==> r[i] == Word(ws[i].text, 0)
  {
    seq(|ws|, i requires 0 <= i < |ws| => Word(ws[i].text, 0))
  }

  function PlainRds(rds: seq<Rd>): (r: seq<Rd>)
    ensures |r| == |rds| && forall i :: 0 <= i < |rds| ==> r[i] == Rd(Word(rds[i].file.text, 0), rds[i].mode, rds[i].fd)
  {
    seq(|rds|, i requires 0 <= i < |rds| => Rd(Word(rds[i].file.text, 0), rds[i].mode, rds[i].fd))
  }

  lemma {:induction false} PlainWrap(cmd: Cmd, rds: seq<Rd>)
    ensures Plain(Wrap(cmd, rds)) == Wrap(Plain(cmd), PlainRds(rds))
    decreases |rds|
  {
    if rds != [] {
      PlainWrap(cmd, rds[..|rds| - 1]);
      assert PlainRds(rds)[..|rds| - 1] == PlainRds(rds[..|rds| - 1]);
    }
  }

  // ----- printing -----

  function PrintWords(ws: seq<Word>): string {
    if ws == [] then "" else ws[0].text + " " + PrintWords(ws[1..])
  }

  function PrintRds(rds: seq<Rd>): string {
    if rds == [] then ""
    else Arrow(rds[0]) + (rds[0].file.text + " " + PrintRds(rds[1..]))
  }

  /** A tree as what its redirections wrap, and those, innermost first. */
  function Inner(t: Cmd): Cmd {
    if t.Redir? then Inner(t.cmd) else t
  }

  function Rds(t: Cmd): seq<Rd> {
    if t.Redir? then Rds(t.cmd) + [Rd(t.file, t.mode, t.fd)] else []
  }

  function Core(t: Cmd): Cmd {
    if t.Back? then Core(t.cmd) else t
  }

  function Backs(t: Cmd): nat {
    if t.Back? then Backs(t.cmd) + 1 else 0
  }

  function Amps(n: nat): string {
    if n == 0 then "" else "& " + Amps(n - 1)
  }

  function Size(t: Cmd): nat {
    match t
    case Exec(_) => 1
    case Redir(cmd, _, _, _) => Size(cmd) + 1
    case Pipe(left, right) => Size(left) + Size(right) + 1
    case List(left, right) => Size(left) + Size(right) + 1
    case Back(cmd) => Size(cmd) + 1
  }

  const EXEC_LEVEL := 0
  const PIPE_LEVEL := 1
  const LINE_LEVEL := 2

  /** Which printer hands the same tree on to which: the order that lets them call each other. */
  function Rank(t: Cmd, level: nat): nat {
    if t.List? || t.Back? then (level + 1) % 3 else if t.Pipe? then (level + 2) % 3 else level
  }

  lemma {:induction false} InnerSize(t: Cmd)
    ensures Size(Inner(t)) <= Size(t) && (t.Redir? ==> Size(Inner(t)) < Size(t)) && !Inner(t).Redir?
  {
    if t.Redir? { InnerSize(t.cmd); }
  }

  lemma {:induction false} CoreSize(t: Cmd)
    ensures Size(Core(t)) <= Size(t) && (t.Back? ==> Size(Core(t)) < Size(t)) && !Core(t).Back?
  {
    if t.Back? { CoreSize(t.cmd); }
  }

  /** A simple command, or anything else in parentheses. */
  function PrintExec(t: Cmd): string
    decreases Size(t), Rank(t, EXEC_LEVEL)
  {
    InnerSize(t);
    if Inner(t).Exec? then PrintWords(Inner(t).argv) + PrintRds(Rds(t))
    else "( " + PrintLine(Inner(t)) + ") " + PrintRds(Rds(t))
  }

  function PrintPipe(t: Cmd): string
    decreases Size(t), Rank(t, PIPE_LEVEL)
  {
    if t.Pipe? then PrintExec(t.left) + "| " + PrintPipe(t.right) else PrintExec(t)
  }

  function PrintLine(t: Cmd): string
    decreases Size(t), Rank(t, LINE_LEVEL)
  {
    if t.List? then
      CoreSize(t.left);
      PrintPipe(Core(t.left)) + Amps(Backs(t.left)) + "; " + PrintLine(t.right)
    else
      CoreSize(t);
      PrintPipe(Core(t)) + Amps(Backs(t))
  }

  // ----- reading tokens back -----

  lemma {:induction false} SkipTwice(s: string)
    ensures SkipSpace(SkipSpace(s)) == SkipSpace(s)
    ensures Gettoken(SkipSpace(s)) == Gettoken(s)
  {
  }

  lemma {:induction false} SkipBlank(z: string)
    ensures SkipSpace(" " + z) == SkipSpace(z)
  {
    assert (" " + z)[1..] == z;
  }

  lemma {:induction false} ReadSymbol(c: char, z: string)
    requires Symbol(c)
    ensures SkipSpace([c, ' '] + z) == [c, ' '] + z
    ensures Gettoken([c, ' '] + z).0 == Sym(c) && Gettoken([c, ' '] + z).2 == SkipSpace(z)
  {
    var s := [c, ' '] + z;
    assert s[0] == c && s[1] == ' ';
    assert SkipSpace(s) == s;
    SkipBlank(z);
    hide SkipSpace;
    assert s[1..] == " " + z;
  }

  lemma {:induction false} WordLenIs(w: string, z: string)
    requires forall i :: 0 <= i < |w| ==> WordChar(w[i])
    ensures WordLen(w + " " + z) == |w|
  {
    if w == "" {
      assert (w + " " + z)[0] == ' ';
    } else {
      WordLenIs(w[1..], z);
      assert (w + " " + z)[1..] == w[1..] + " " + z;
    }
  }

  lemma {:induction false} ReadWord(w: Word, z: string)
    requires LegalWord(w)
    ensures SkipSpace(w.text + " " + z) == w.text + " " + z && WordChar((w.text + " " + z)[0])
    ensures Gettoken(w.text + " " + z) == (Arg, Word(w.text, |w.text + " " + z|), SkipSpace(z))
  {
    var s := w.text + " " + z;
    assert s[0] == w.text[0];
    assert SkipSpace(s) == s;
    WordLenIs(w.text, z);
    SkipBlank(z);
    hide SkipSpace, WordLen;
    assert s[..|w.text|] == w.text && s[|w.text|..] == " " + z;
  }

  // ----- reading redirections and arguments back -----

  lemma {:induction false} RedirsSkip(rds: seq<Rd>, s: string)
    ensures ParseRedirs(rds, SkipSpace(s)) == ParseRedirs(rds, s)
  {
    SkipTwice(s);
    hide SkipSpace, Gettoken;
  }

  lemma {:induction false} ReadOneRedir(pre: seq<Rd>, rd: Rd, tail: string) returns (w: Word)
    requires LegalWord(rd.file) && LegalRd(rd.mode, rd.fd)
    ensures Word(w.text, 0) == rd.file
    ensures ParseRedirs(pre, Arrow(rd) + (rd.file.text + " " + tail)) ==
            ParseRedirs(pre + [Rd(w, rd.mode, rd.fd)], tail)
  {
    var c := if rd.mode == O_RDONLY then '<' else '>';
    var t := rd.file.text + " " + tail;
    var s := [c, ' '] + t;
    assert s == Arrow(rd) + t;
    ReadSymbol(c, t);
    ReadWord(rd.file, tail);
    assert s[0] == c;
    w := Word(rd.file.text, |t|);
    hide SkipSpace, Gettoken, LegalWord;
    assert Gettoken(s).2 == t;
    RedirsSkip(pre + [Rd(w, rd.mode, rd.fd)], tail);
  }

  function Arrow(rd: Rd): string {
    if rd.mode == O_RDONLY then "< " else "> "
  }

  lemma {:induction false} RdsText(rds: seq<Rd>, z: string)
    requires rds != []
    ensures PrintRds(rds) + z == Arrow(rds[0]) + (rds[0].file.text + " " + (PrintRds(rds[1..]) + z))
  {
    Assoc3(Arrow(rds[0]), rds[0].file.text + " ", PrintRds(rds[1..]), z);
  }

  lemma {:induction false} Assoc3(a: string, b: string, c: string, z: string)
    ensures (a + (b + c)) + z == a + (b + (c + z))
  {
  }

  predicate LegalRds(rds: seq<Rd>) {
    forall i :: 0 <= i < |rds| ==> LegalWord(rds[i].file) && LegalRd(rds[i].mode, rds[i].fd)
  }

  lemma {:induction false} PlainPush(pre: seq<Rd>, rds: seq<Rd>, w: Word)
    requires rds != [] && Word(w.text, 0) == rds[0].file
    ensures PlainRds(pre + [Rd(w, rds[0].mode, rds[0].fd)]) + rds[1..] == PlainRds(pre) + rds
  {
  }

  lemma {:induction false} ReadRedirs(pre: seq<Rd>, rds: seq<Rd>, z: string)
    requires LegalRds(rds) && !NextRedir(z)
    ensures var r := ParseRedirs(pre, PrintRds(rds) + z);
            r.Ok? && PlainRds(r.value) == PlainRds(pre) + rds && r.rest == SkipSpace(z)
    decreases |rds|
  {
    if rds == [] {
      assert "" + z == z;
    } else {
      assert LegalWord(rds[0].file) && LegalRd(rds[0].mode, rds[0].fd);
      assert LegalRds(rds[1..]);
      hide SkipSpace, NextRedir, ParseRedirs, LegalWord, LegalRds, PrintRds, PlainRds;
      var w := ReadOneRedir(pre, rds[0], PrintRds(rds[1..]) + z);
      RdsText(rds, z);
      ReadRedirs(pre + [Rd(w, rds[0].mode, rds[0].fd)], rds[1..], z);
      PlainPush(pre, rds, w);
    }
  }

  /** Nothing follows that a simple command would read. */
  predicate AtStop(z: string) {
    SkipSpace(z) == "" || NextStop(z)
  }

  predicate LegalWords(ws: seq<Word>) {
    forall i :: 0 <= i < |ws| ==> LegalWord(ws[i])
  }

  lemma {:induction false} ArgsStop(argv: seq<Word>, rds: seq<Rd>, z: string)
    requires AtStop(z)
    ensures ParseArgs(argv, rds, SkipSpace(z)) == Ok(Wrap(Exec(argv), rds), SkipSpace(z)) && !NextRedir(z)
    ensures !Next(z, '(')
  {
    SkipTwice(z);
    hide SkipSpace, Wrap;
  }

  /** A word is next: no redirection, parenthesis or end. */
  lemma {:induction false} WordNext(w: Word, tail: string)
    requires LegalWord(w)
    ensures var s := w.text + " " + tail;
            !NextRedir(s) && !Next(s, '(') && !NextStop(s) && ParseRedirs([], s) == Ok([], s) && SkipSpace(s) == s
    ensures forall rds :: ParseRedirs(rds, w.text + " " + tail) == Ok(rds, w.text + " " + tail)
  {
    ReadWord(w, tail);
    hide SkipSpace, Gettoken;
  }

  lemma {:induction false} WordsText(ws: seq<Word>, z: string)
    requires ws != []
    ensures PrintWords(ws) + z == ws[0].text + " " + (PrintWords(ws[1..]) + z)
  {
  }

  predicate ReadsExec(r: Result<Cmd>, argv: seq<Word>, rds: seq<Rd>, z: string) {
    r.Ok? && r.rest == SkipSpace(z) && Plain(r.value) == Wrap(Exec(argv), rds)
  }

  lemma {:induction false} StopReads(argv: seq<Word>, rds: seq<Rd>, z: string)
    requires AtStop(z)
    ensures ReadsExec(ParseArgs(argv, rds, SkipSpace(z)), PlainWords(argv), PlainRds(rds), z)
  {
    ArgsStop(argv, rds, z);
    PlainWrap(Exec(argv), rds);
    hide ParseArgs, SkipSpace, Wrap;
  }

  lemma {:induction false} ReadArg(argv: seq<Word>, rds: seq<Rd>, w: Word, tail: string) returns (x: Word)
    requires LegalWord(w) && |argv| + 1 < MAXARGS
    ensures Word(x.text, 0) == w
    ensures var r := ParseRedirs(rds, tail);
            ParseArgs(argv, rds, w.text + " " + tail) ==
              if r.Panic? then Panic else ParseArgs(argv + [x], r.value, r.rest)
  {
    ReadWord(w, tail);
    WordNext(w, tail);
    RedirsSkip(rds, tail);
    x := Word(w.text, |w.text + " " + tail|);
    hide SkipSpace, Gettoken, NextStop, LegalWord, ParseRedirs;
  }

  lemma {:induction false} ReadArgs(argv: seq<Word>, ws: seq<Word>, rds: seq<Rd>, more: seq<Rd>, z: string)
    requires |argv| + |ws| < MAXARGS && ws != [] && LegalWords(ws) && LegalRds(more) && AtStop(z)
    ensures ReadsExec(ParseArgs(argv, rds, PrintWords(ws) + (PrintRds(more) + z)),
                      PlainWords(argv) + ws, PlainRds(rds) + more, z)
    decreases |ws|
  {
    var end := PrintRds(more) + z;
    var tail := PrintWords(ws[1..]) + end;
    WordsText(ws, end);
    assert LegalWord(ws[0]) && LegalWords(ws[1..]);
    var x := ReadArg(argv, rds, ws[0], tail);
    ArgsStop([], [], z);
    PlainArg(argv, ws, x);
    if |ws| == 1 {
      assert tail == end;
      ReadRedirs(rds, more, z);
      hide ParseArgs, ParseRedirs, SkipSpace, LegalWords, LegalRds, AtStop, PrintWords, PrintRds, PlainWords, PlainRds,
           ReadsExec;
      StopReads(argv + [x], ParseRedirs(rds, end).value, z);
      assert PlainWords(argv) + ws == PlainWords(argv + [x]) by { assert ws[1..] == []; }
    } else {
      WordsText(ws[1..], end);
      WordNext(ws[1], PrintWords(ws[1..][1..]) + end);
      hide ParseArgs, ParseRedirs, SkipSpace, LegalWords, LegalRds, AtStop, PrintWords, PrintRds, PlainWords, PlainRds,
           ReadsExec;
      ReadArgs(argv + [x], ws[1..], rds, more, z);
    }
  }

  lemma {:induction false} PlainArg(argv: seq<Word>, ws: seq<Word>, x: Word)
    requires ws != [] && Word(x.text, 0) == ws[0]
    ensures PlainWords(argv + [x]) + ws[1..] == PlainWords(argv) + ws
  {
  }

  // ----- reading trees back -----

  predicate AtPipeEnd(z: string) {
    SkipSpace(z) == "" || Next(z, ')') || Next(z, '&') || Next(z, ';')
  }

  predicate AtLineEnd(z: string) {
    SkipSpace(z) == "" || Next(z, ')')
  }

  /** The tree was read, up to z. */
  predicate Reads(r: Result<Cmd>, t: Cmd, z: string) {
    r.Ok? && r.rest == SkipSpace(z) && Plain(r.value) == t
  }

  lemma {:induction false} ExecSkips(s: string)
    ensures ParseExec(SkipSpace(s)) == ParseExec(s)
  {
    SkipTwice(s);
    RedirsSkip([], s);
    hide SkipSpace, Gettoken, ParseRedirs, ParseArgs, ParseLine;
  }

  lemma {:induction false} ParseSkips(s: string)
    ensures ParsePipe(SkipSpace(s)) == ParsePipe(s) && ParseLine(SkipSpace(s)) == ParseLine(s)
  {
    ExecSkips(s);
    hide SkipSpace, Gettoken, ParseExec, ParseBacks, Next;
  }

  lemma {:induction false} SymbolNext(c: char, z: string)
    requires Symbol(c)
    ensures var s := [c, ' '] + z;
            && SkipSpace(s) == s && (forall d :: Next(s, d) <==> d == c) && Gettoken(s).0 == Sym(c)
            && Gettoken(s).2 == SkipSpace(z)
  {
    ReadSymbol(c, z);
    assert ([c, ' '] + z)[0] == c;
    hide SkipSpace, Gettoken;
  }

  lemma {:induction false} WrapInner(t: Cmd)
    ensures Wrap(Inner(t), Rds(t)) == t
  {
    if t.Redir? {
      WrapInner(t.cmd);
      assert Rds(t)[..|Rds(t)| - 1] == Rds(t.cmd);
    }
  }

  lemma {:induction false} LegalInner(t: Cmd)
    requires Legal(t)
    ensures Legal(Inner(t)) && LegalRds(Rds(t))
  {
    if t.Redir? { LegalInner(t.cmd); }
  }

  lemma {:induction false} ReadSimple(argv: seq<Word>, rds: seq<Rd>, z: string)
    requires |argv| < MAXARGS && LegalWords(argv) && LegalRds(rds) && AtStop(z)
    ensures ReadsExec(ParseExec((PrintWords(argv) + PrintRds(rds)) + z), argv, rds, z)
  {
    var end := PrintRds(rds) + z;
    assert (PrintWords(argv) + PrintRds(rds)) + z == PrintWords(argv) + end;
    ArgsStop([], [], z);
    assert PlainWords([]) == [] && PlainRds([]) == [];
    assert [] + argv == argv && [] + rds == rds;
    if argv == [] {
      assert PrintWords(argv) + end == end;
      ReadRedirs([], rds, z);
      RdsNotParen(rds, z);
      hide ParseArgs, ParseRedirs, SkipSpace, LegalWords, LegalRds, AtStop, PrintWords, PrintRds, PlainWords, PlainRds,
           ReadsExec;
      StopReads([], ParseRedirs([], end).value, z);
    } else {
      WordsText(argv, end);
      WordNext(argv[0], PrintWords(argv[1..]) + end);
      ReadArgs([], argv, [], rds, z);
      hide ParseArgs, ParseRedirs, SkipSpace, LegalWords, LegalRds, AtStop, PrintWords, PrintRds, PlainWords, PlainRds,
           ReadsExec;
    }
  }

  lemma {:induction false} RdsNotParen(rds: seq<Rd>, z: string)
    requires !Next(z, '(')
    ensures !Next(PrintRds(rds) + z, '(')
  {
    if rds == [] {
      assert "" + z == z;
    } else {
      RdsText(rds, z);
      var c := if rds[0].mode == O_RDONLY then '<' else '>';
      var t := rds[0].file.text + " " + (PrintRds(rds[1..]) + z);
      assert Arrow(rds[0]) + t == [c, ' '] + t;
      SymbolNext(c, t);
      hide SkipSpace;
    }
  }

  // ----- background commands -----

  function BackN(cmd: Cmd, n: nat): Cmd
    decreases n
  {
    if n == 0 then cmd else BackN(Back(cmd), n - 1)
  }

  lemma {:induction false} BackNOut(cmd: Cmd, n: nat)
    ensures BackN(Back(cmd), n) == Back(BackN(cmd, n)) && Plain(BackN(cmd, n)) == BackN(Plain(cmd), n)
    decreases n
  {
    if n > 0 { BackNOut(Back(cmd), n - 1); }
  }

  lemma {:induction false} BackNCore(t: Cmd)
    ensures BackN(Core(t), Backs(t)) == t
  {
    if t.Back? {
      BackNCore(t.cmd);
      BackNOut(Core(t), Backs(t.cmd));
    }
  }

  lemma {:induction false} ReadBacks(cmd: Cmd, n: nat, z: string)
    requires !Next(z, '&')
    ensures ParseBacks(cmd, SkipSpace(Amps(n) + z)) == (BackN(cmd, n), SkipSpace(z))
    decreases n
  {
    if n == 0 {
      assert "" + z == z;
      SkipTwice(z);
      hide SkipSpace;
    } else {
      var tail := Amps(n - 1) + z;
      assert Amps(n) + z == ['&', ' '] + tail;
      SymbolNext('&', tail);
      hide SkipSpace, Gettoken, Next;
      ReadBacks(Back(cmd), n - 1, z);
    }
  }

  lemma {:induction false} AmpsFollow(n: nat, z: string)
    requires AtLineEnd(z) || Next(z, ';')
    ensures AtPipeEnd(Amps(n) + z)
  {
    if n == 0 {
      assert "" + z == z;
      hide SkipSpace;
    } else {
      assert Amps(n) + z == ['&', ' '] + (Amps(n - 1) + z);
      SymbolNext('&', Amps(n - 1) + z);
      hide SkipSpace;
    }
  }

  // ----- the round trip -----

  lemma {:induction false} ReadBlock(c: Cmd, rds: seq<Rd>, z: string)
    requires Legal(c) && LegalRds(rds) && AtStop(z)
    requires Reads(ParseLine(PrintLine(c) + ([')', ' '] + (PrintRds(rds) + z))), c, [')', ' '] + (PrintRds(rds) + z))
    ensures Reads(ParseExec(("( " + PrintLine(c) + ") " + PrintRds(rds)) + z), Wrap(c, rds), z)
  {
    var end := PrintRds(rds) + z;
    var close := [')', ' '] + end;
    var s := ['(', ' '] + (PrintLine(c) + close);
    assert s == ("( " + PrintLine(c) + ") " + PrintRds(rds)) + z;
    SymbolNext('(', PrintLine(c) + close);
    SymbolNext(')', end);
    ParseSkips(PrintLine(c) + close);
    ArgsStop([], [], z);
    ReadRedirs([], rds, z);
    RedirsSkip([], end);
    var line := ParseLine(PrintLine(c) + close);
    PlainWrap(line.value, ParseRedirs([], end).value);
    assert PlainRds([]) == [] && [] + rds == rds;
    hide SkipSpace, Gettoken, Next, ParseRedirs, ParseArgs, ParseLine, PrintLine, PrintRds, Plain, PlainRds, Legal,
         LegalRds, Wrap, AtStop;
  }

  lemma {:induction false} ReadExec(t: Cmd, z: string)
    requires Legal(t) && AtStop(z)
    ensures Reads(ParseExec(PrintExec(t) + z), t, z)
    decreases Size(t), Rank(t, EXEC_LEVEL)
  {
    InnerSize(t);
    LegalInner(t);
    WrapInner(t);
    if Inner(t).Exec? {
      ReadSimple(Inner(t).argv, Rds(t), z);
      hide ParseExec, SkipSpace, Plain, AtStop, Legal, Wrap;
    } else {
      var close := [')', ' '] + (PrintRds(Rds(t)) + z);
      SymbolNext(')', PrintRds(Rds(t)) + z);
      hide ParseExec, SkipSpace, Plain, AtStop, Legal, Wrap, LegalRds, PrintRds, Next, Reads, ParseLine, PrintLine;
      ReadLine(Inner(t), close);
      ReadBlock(Inner(t), Rds(t), z);
    }
  }

  lemma {:induction false} ReadPipe(t: Cmd, z: string)
    requires Legal(t) && AtPipeEnd(z)
    ensures Reads(ParsePipe(PrintPipe(t) + z), t, z)
    decreases Size(t), Rank(t, PIPE_LEVEL)
  {
    SkipTwice(z);
    if t.Pipe? {
      var tail := PrintPipe(t.right) + z;
      var bar := ['|', ' '] + tail;
      assert PrintPipe(t) + z == PrintExec(t.left) + bar;
      SymbolNext('|', tail);
      assert AtStop(bar);
      ParseSkips(tail);
      ReadPipe(t.right, z);
      ReadExec(t.left, bar);
      hide ParseExec, SkipSpace, Gettoken, PrintExec, PrintPipe, Next, AtStop, AtPipeEnd, Legal;
    } else {
      hide ParseExec, SkipSpace, Gettoken, PrintExec, Legal;
      ReadExec(t, z);
    }
  }

  lemma {:induction false} ReadLine(t: Cmd, z: string)
    requires Legal(t) && AtLineEnd(z)
    ensures Reads(ParseLine(PrintLine(t) + z), t, z)
    decreases Size(t), Rank(t, LINE_LEVEL)
  {
    var left := if t.List? then t.left else t;
    var end := if t.List? then [';', ' '] + (PrintLine(t.right) + z) else z;
    CoreSize(left);
    LegalCore(left);
    BackNCore(left);
    LineText(t, z);
    if t.List? {
      SymbolNext(';', PrintLine(t.right) + z);
      ReadLine(t.right, z);
      ParseSkips(PrintLine(t.right) + z);
    }
    SkipTwice(z);
    hide SkipSpace, Gettoken, ParsePipe, PrintPipe, PrintLine, Legal;
    AmpsFollow(Backs(left), end);
    ReadPipe(Core(left), Amps(Backs(left)) + end);
    var pipe := ParsePipe(PrintPipe(Core(left)) + (Amps(Backs(left)) + end));
    ReadBacks(pipe.value, Backs(left), end);
    BackNOut(pipe.value, Backs(left));
  }

  lemma {:induction false} LegalCore(t: Cmd)
    requires Legal(t)
    ensures Legal(Core(t))
  {
    if t.Back? { LegalCore(t.cmd); }
  }

  lemma {:induction false} LineText(t: Cmd, z: string)
    ensures var left := if t.List? then t.left else t;
            var end := if t.List? then [';', ' '] + (PrintLine(t.right) + z) else z;
            PrintLine(t) + z == PrintPipe(Core(left)) + (Amps(Backs(left)) + end)
  {
    CoreSize(if t.List? then t.left else t);
  }

  /** Reading the printing of a legal command tree gives the tree back. */
  lemma {:induction false} RoundTrip(t: Cmd)
    requires Legal(t)
    ensures ParseCmd(PrintLine(t)).Ok? && Plain(ParseCmd(PrintLine(t)).value) == t
  {
    assert PrintLine(t) + "" == PrintLine(t);
    ReadLine(t, "");
    hide ParseLine, PrintLine;
  }

  // ----- lines outside the printed language -----

  /** `>>` is read like `>`. */
  lemma {:induction false} AppendIsWrite(pre: seq<Rd>, w: Word, tail: string) returns (x: Word)
    requires LegalWord(w)
    ensures Word(x.text, 0) == w
    ensures ParseRedirs(pre, ">> " + (w.text + " " + tail)) == ParseRedirs(pre + [Rd(x, O_WRONLY + O_CREATE, 1)], tail)
  {
    var t := w.text + " " + tail;
    var s := ">> " + t;
    assert s[0] == '>' && s[1] == '>' && s[2..] == " " + t;
    assert SkipSpace(s) == s;
    SkipBlank(t);
    ReadWord(w, tail);
    x := Word(w.text, |t|);
    RedirsSkip(pre + [Rd(x, O_WRONLY + O_CREATE, 1)], tail);
    assert Gettoken(s).0 == Append && Gettoken(s).2 == t;
    hide SkipSpace, Gettoken, LegalWord;
  }

  /** A redirection without a file is refused. */
  lemma {:induction false} MissingFile(pre: seq<Rd>, c: char, z: string)
    requires (c == '<' || c == '>') && (AtStop(z) || NextRedir(z) || Next(z, '('))
    ensures ParseRedirs(pre, [c, ' '] + z).Panic?
  {
    SymbolNext(c, z);
    SkipTwice(z);
    NoWord(z);
    hide SkipSpace, Gettoken, Next;
  }

  lemma {:induction false} NoWord(z: string)
    requires AtStop(z) || NextRedir(z) || Next(z, '(')
    ensures Gettoken(z).0 != Arg
  {
  }

  /** MAXARGS or more words are refused. */
  lemma {:induction false} TooManyArgs(argv: seq<Word>, ws: seq<Word>, rds: seq<Rd>, z: string)
    requires LegalWords(ws) && |argv| < MAXARGS <= |argv| + |ws|
    ensures ParseArgs(argv, rds, PrintWords(ws) + z).Panic?
    decreases |ws|
  {
    var tail := PrintWords(ws[1..]) + z;
    WordsText(ws, z);
    assert LegalWord(ws[0]) && LegalWords(ws[1..]);
    ReadWord(ws[0], tail);
    WordNext(ws[0], tail);
    if |argv| + 1 < MAXARGS {
      var x := ReadArg(argv, rds, ws[0], tail);
      WordsText(ws[1..], z);
      assert LegalWord(ws[1]);
      WordNext(ws[1], PrintWords(ws[1..][1..]) + z);
      hide ParseArgs, ParseRedirs, SkipSpace, LegalWords, PrintWords, LegalWord, Gettoken;
      TooManyArgs(argv + [x], ws[1..], rds, z);
    } else {
      hide ParseRedirs, SkipSpace, LegalWords, PrintWords, LegalWord, Gettoken, NextStop;
    }
  }

  /** A parenthesis that is not closed is refused. */
  lemma {:induction false} Unclosed(t: Cmd)
    requires Legal(t)
    ensures ParseExec("( " + PrintLine(t)).Panic?
  {
    assert "( " + PrintLine(t) == ['(', ' '] + PrintLine(t);
    assert PrintLine(t) + "" == PrintLine(t);
    SymbolNext('(', PrintLine(t));
    ParseSkips(PrintLine(t));
    ReadLine(t, "");
    hide Gettoken, ParseLine, PrintLine, Legal;
  }

  /** So is one that was not opened. */
  lemma {:induction false} Leftover(t: Cmd)
    requires Legal(t)
    ensures ParseCmd(PrintLine(t) + ") ").Panic?
  {
    assert [')', ' '] + "" == ") ";
    SymbolNext(')', "");
    ReadLine(t, ") ");
    hide SkipSpace, Gettoken, ParseLine, PrintLine, Legal;
  }
}
