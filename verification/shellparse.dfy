/** The parser of user/sh.c as it runs: a cursor moved along the line by loops and recursive descent, and
    nulterminate writing into the line afterwards. */
module ShellParser {
  import opened Shell

  // ----- the words of an accepted line -----

  predicate Suffix(line: string, s: string) {
    |s| <= |line| && s == line[|line| - |s|..]
  }

  /** w is a maximal run of word characters of the line. */
  predicate WordAt(line: string, w: Word) {
    && 0 < |w.text| <= w.left <= |line|
    && w.text == line[|line| - w.left..|line| - w.left + |w.text|]
    && (forall i :: 0 <= i < |w.text| ==> WordChar(w.text[i]))
    && (|w.text| < w.left ==> !WordChar(line[|line| - w.left + |w.text|]))
  }

  predicate WordsAt(line: string, ws: seq<Word>) {
    forall i :: 0 <= i < |ws| ==> WordAt(line, ws[i])
  }

  predicate RdsAt(line: string, rds: seq<Rd>) {
    forall i :: 0 <= i < |rds| ==> WordAt(line, rds[i].file)
  }

  predicate AllWords(line: string, t: Cmd) {
    match t
    case Exec(argv) => WordsAt(line, argv)
    case Redir(cmd, file, _, _) => AllWords(line, cmd) && WordAt(line, file)
    case Pipe(left, right) => AllWords(line, left) && AllWords(line, right)
    case List(left, right) => AllWords(line, left) && AllWords(line, right)
    case Back(cmd) => AllWords(line, cmd)
  }

  lemma {:induction false} SuffixTail(line: string, s: string, k: nat)
    requires Suffix(line, s) && k <= |s|
    ensures Suffix(line, s[k..])
  {
  }

  lemma {:induction false} SkipSuffix(line: string, s: string)
    requires Suffix(line, s)
    ensures Suffix(line, SkipSpace(s))
    decreases |s|
  {
    if s != "" && Space(s[0]) {
      SuffixTail(line, s, 1);
      SkipSuffix(line, s[1..]);
    }
  }

  lemma {:induction false} WordLenRun(s: string)
    ensures forall i :: 0 <= i < WordLen(s) ==> WordChar(s[i])
    ensures WordLen(s) < |s| ==> !WordChar(s[WordLen(s)])
    decreases |s|
  {
    if s != "" && WordChar(s[0]) {
      WordLenRun(s[1..]);
      assert forall i :: 0 < i < WordLen(s) ==> s[i] == s[1..][i - 1];
      assert WordLen(s) < |s| ==> s[WordLen(s)] == s[1..][WordLen(s) - 1];
    }
  }

  lemma {:induction false} RunAt(line: string, t: string)
    requires Suffix(line, t) && t != "" && WordChar(t[0])
    ensures WordAt(line, Word(t[..WordLen(t)], |t|))
  {
    WordLenRun(t);
    var n, q := WordLen(t), |line| - |t|;
    hide WordLen, WordChar;
    assert t[..n] == line[q..q + n];
    assert n < |t| ==> t[n] == line[q + n];
  }

  lemma {:induction false} TokenAt(line: string, s: string)
    requires Suffix(line, s)
    ensures Suffix(line, Gettoken(s).2) && (Gettoken(s).0 == Arg ==> WordAt(line, Gettoken(s).1))
  {
    SkipSuffix(line, s);
    var t := SkipSpace(s);
    if t != "" {
      var k := if t[0] == '>' && |t| > 1 && t[1] == '>' then 2 else if Symbol(t[0]) then 1 else WordLen(t);
      SuffixTail(line, t, k);
      SkipSuffix(line, t[k..]);
      if !Symbol(t[0]) { RunAt(line, t); }
      hide SkipSpace, WordLen, Suffix, WordAt;
    }
  }

  lemma {:induction false} WrapWords(line: string, cmd: Cmd, rds: seq<Rd>)
    requires AllWords(line, cmd) && RdsAt(line, rds)
    ensures AllWords(line, Wrap(cmd, rds))
    decreases |rds|
  {
    if rds != [] { WrapWords(line, cmd, rds[..|rds| - 1]); }
  }

  lemma {:induction false} RedirsAt(line: string, rds: seq<Rd>, s: string)
    requires Suffix(line, s) && RdsAt(line, rds) && ParseRedirs(rds, s).Ok?
    ensures Suffix(line, ParseRedirs(rds, s).rest) && RdsAt(line, ParseRedirs(rds, s).value)
    decreases |s|
  {
    SkipSuffix(line, s);
    TokenAt(line, s);
    TokenAt(line, Gettoken(s).2);
    hide SkipSpace, Gettoken, Suffix, WordAt;
    if NextRedir(s) {
      var (tok, _, t) := Gettoken(s);
      var (_, w, u) := Gettoken(t);
      var more := rds + [if tok == Sym('<') then Rd(w, O_RDONLY, 0) else Rd(w, O_WRONLY + O_CREATE, 1)];
      NextMoves(s, '<');
      NextMoves(s, '>');
      RedirsAt(line, more, u);
    }
  }

  /** A character ahead makes gettoken move. */
  lemma {:induction false} NextMoves(s: string, c: char)
    ensures Next(s, c) ==> |Gettoken(s).2| < |s|
  {
  }

  lemma {:induction false} ArgsAt(line: string, argv: seq<Word>, rds: seq<Rd>, s: string)
    requires Suffix(line, s) && WordsAt(line, argv) && RdsAt(line, rds) && ParseArgs(argv, rds, s).Ok?
    ensures Suffix(line, ParseArgs(argv, rds, s).rest) && AllWords(line, ParseArgs(argv, rds, s).value)
    decreases |s|
  {
    SkipSuffix(line, s);
    TokenAt(line, s);
    WrapWords(line, Exec(argv), rds);
    var (tok, w, t) := Gettoken(s);
    hide SkipSpace, Gettoken, Suffix, WordAt, Wrap, NextStop;
    if !NextStop(s) && tok != End {
      RedirsAt(line, rds, t);
      hide ParseRedirs, RdsAt;
      ArgsAt(line, argv + [w], ParseRedirs(rds, t).value, ParseRedirs(rds, t).rest);
    }
  }

  lemma {:induction false} ExecAt(line: string, s: string)
    requires Suffix(line, s) && ParseExec(s).Ok?
    ensures Suffix(line, ParseExec(s).rest) && AllWords(line, ParseExec(s).value)
    decreases |s|, 0
  {
    TokenAt(line, s);
    NextMoves(s, '(');
    hide SkipSpace, Gettoken, Suffix, WordAt, Wrap, ParseRedirs, ParseArgs, Next;
    if Next(s, '(') {
      var t := Gettoken(s).2;
      LineAt(line, t);
      hide ParseLine;
      var line0 := ParseLine(t);
      TokenAt(line, line0.rest);
      var v := Gettoken(line0.rest).2;
      RedirsAt(line, [], v);
      WrapWords(line, line0.value, ParseRedirs([], v).value);
    } else {
      RedirsAt(line, [], s);
      ArgsAt(line, [], ParseRedirs([], s).value, ParseRedirs([], s).rest);
    }
  }

  lemma {:induction false} PipeAt(line: string, s: string)
    requires Suffix(line, s) && ParsePipe(s).Ok?
    ensures Suffix(line, ParsePipe(s).rest) && AllWords(line, ParsePipe(s).value)
    decreases |s|, 1
  {
    ExecAt(line, s);
    var t := ParseExec(s).rest;
    SkipSuffix(line, t);
    TokenAt(line, t);
    NextMoves(t, '|');
    hide SkipSpace, Gettoken, Suffix, ParseExec, Next;
    if Next(t, '|') {
      PipeAt(line, Gettoken(t).2);
    }
  }

  lemma {:induction false} BacksAt(line: string, cmd: Cmd, s: string)
    requires Suffix(line, s) && AllWords(line, cmd)
    ensures Suffix(line, ParseBacks(cmd, s).1) && AllWords(line, ParseBacks(cmd, s).0)
    decreases |s|
  {
    SkipSuffix(line, s);
    TokenAt(line, s);
    NextMoves(s, '&');
    hide SkipSpace, Gettoken, Suffix, Next;
    if Next(s, '&') {
      BacksAt(line, Back(cmd), Gettoken(s).2);
    }
  }

  lemma {:induction false} LineAt(line: string, s: string)
    requires Suffix(line, s) && ParseLine(s).Ok?
    ensures Suffix(line, ParseLine(s).rest) && AllWords(line, ParseLine(s).value)
    decreases |s|, 2
  {
    PipeAt(line, s);
    BacksAt(line, ParsePipe(s).value, ParsePipe(s).rest);
    var u := ParseBacks(ParsePipe(s).value, ParsePipe(s).rest).1;
    SkipSuffix(line, u);
    TokenAt(line, u);
    NextMoves(u, ';');
    hide SkipSpace, Gettoken, Suffix, ParsePipe, ParseBacks, Next;
    if Next(u, ';') {
      LineAt(line, Gettoken(u).2);
    }
  }

  // ----- the parser -----

  /** The method's outcome is the function's, with the cursor at what is left. */
  predicate Same<T(==)>(ok: bool, value: T, rest: string, spec: Result<T>) {
    (ok <==> spec.Ok?) && (ok ==> value == spec.value && rest == spec.rest)
  }

  class Parser {
    const line: string
    var s: nat

    predicate Valid()
      reads this
    {
      s <= |line|
    }

    function Rest(): string
      requires Valid()
      reads this
    {
      line[s..]
    }

    constructor (text: string)
      ensures Valid() && line == text && Rest() == text
    {
      line := text;
      s := 0;
    }

    /** The loop that both gettoken and peek start with. */
    method Skip()
      requires Valid()
      modifies this
      ensures Valid() && Rest() == SkipSpace(old(Rest())) && s >= old(s)
    {
      while s < |line| && Space(line[s])
        invariant Valid() && SkipSpace(Rest()) == SkipSpace(old(Rest())) && s >= old(s)
      {
        assert Rest()[1..] == line[s + 1..];
        s := s + 1;
      }
    }

    /** gettoken's loop over a word. */
    method SkipWord()
      requires Valid()
      modifies this
      ensures Valid() && s == old(s) + WordLen(old(Rest()))
    {
      ghost var t := Rest();
      while s < |line| && WordChar(line[s])
        invariant old(s) <= s <= |line| && WordLen(t) == s - old(s) + WordLen(Rest())
      {
        assert Rest()[1..] == line[s + 1..];
        s := s + 1;
      }
    }

    method Gettoken() returns (tok: Token, w: Word)
      requires Valid()
      modifies this
      ensures Valid() && s >= old(s) && (tok, w, Rest()) == Shell.Gettoken(old(Rest()))
    {
      Skip();
      ghost var t := Rest();
      var q := s;
      if s == |line| {
        tok := End;
        assert Rest() == "";
        return End, Word("", 0);
      }
      assert t[0] == line[s] && (|t| > 1 ==> t[1] == line[s + 1]);
      if Symbol(line[s]) {
        tok := Sym(line[s]);
        s := s + 1;
        if line[q] == '>' && s < |line| && line[s] == '>' {
          tok := Append;
          s := s + 1;
        }
      } else {
        tok := Arg;
        SkipWord();
      }
      hide SkipSpace, WordLen;
      w := Word(line[q..s], |line| - q);
      assert line[q..s] == t[..s - q] && Rest() == t[s - q..];
      Skip();
    }

    method Peek(toks: string) returns (r: bool)
      requires Valid()
      modifies this
      ensures Valid() && s >= old(s) && Rest() == SkipSpace(old(Rest()))
      ensures r <==> Rest() != "" && Rest()[0] in toks
    {
      Skip();
      r := s < |line| && line[s] in toks;
    }

    /** Peeks at a set of characters are tests of what is next. */
    lemma Ahead(before: string, toks: string, r: bool)
      requires Valid() && Rest() == SkipSpace(before) && (r <==> Rest() != "" && Rest()[0] in toks)
      ensures toks == "<>" ==> r == NextRedir(before)
      ensures toks == "|)&;" ==> r == NextStop(before)
      ensures |toks| == 1 ==> r == Next(before, toks[0])
    {
      hide SkipSpace;
      if toks == "<>" { assert toks[0] == '<' && toks[1] == '>'; }
      if toks == "|)&;" { assert toks[0] == '|' && toks[1] == ')' && toks[2] == '&' && toks[3] == ';'; }
    }

    /** peek, then gettoken or not: reading goes on from the same place. */
    method See(toks: string) returns (r: bool)
      requires Valid()
      modifies this
      ensures Valid() && s >= old(s) && Rest() == SkipSpace(old(Rest()))
      ensures Shell.Gettoken(Rest()) == Shell.Gettoken(old(Rest()))
      ensures toks == "<>" ==> r == NextRedir(old(Rest()))
      ensures toks == "|)&;" ==> r == NextStop(old(Rest()))
      ensures |toks| == 1 ==> r == Next(old(Rest()), toks[0])
      ensures forall c :: Next(Rest(), c) <==> Next(old(Rest()), c)
    {
      r := Peek(toks);
      Ahead(old(Rest()), toks, r);
      SkipAgain(old(Rest()));
    }

    method Parseredirs(pre: seq<Rd>) returns (ok: bool, rds: seq<Rd>)
      requires Valid()
      modifies this
      ensures Valid() && s >= old(s) && Same(ok, rds, Rest(), ParseRedirs(pre, old(Rest())))
    {
      hide SkipSpace, Shell.Gettoken, Next;
      rds := pre;
      ghost var from := Rest();
      while true
        invariant Valid() && s >= old(s) && ParseRedirs(rds, Rest()) == ParseRedirs(pre, from)
        decreases |line| - s
      {
        ghost var at := Rest();
        var more := See("<>");
        if !more {
          return true, rds;
        }
        var tok, _ := Gettoken();
        var kind, w := Gettoken();
        if kind != Arg {
          return false, rds;
        }
        NextMoves(at, '<');
        NextMoves(at, '>');
        rds := rds + [if tok == Sym('<') then Rd(w, O_RDONLY, 0) else Rd(w, O_WRONLY + O_CREATE, 1)];
      }
    }

    /** The loop of parseexec; `rds` are the redirections already wrapped around the command. */
    method Parseargs(rds0: seq<Rd>) returns (ok: bool, cmd: Cmd)
      requires Valid()
      modifies this
      ensures Valid() && s >= old(s) && Same(ok, cmd, Rest(), ParseArgs([], rds0, old(Rest())))
    {
      hide SkipSpace, Shell.Gettoken, Next, NextStop, ParseRedirs, Wrap;
      var argv: seq<Word>, rds := [], rds0;
      cmd := Exec([]);
      ghost var from := Rest();
      while true
        invariant Valid() && s >= old(s) && ParseArgs(argv, rds, Rest()) == ParseArgs([], rds0, from)
        decreases |line| - s
      {
        ghost var at := Rest();
        var stop := See("|)&;");
        if stop {
          break;
        }
        var tok, w := Gettoken();
        if tok == End {
          break;
        }
        if tok != Arg {
          return false, cmd;
        }
        if |argv| + 1 >= MAXARGS {
          return false, cmd;
        }
        ghost var t := Rest();
        var more;
        ok, more := Parseredirs(rds);
        if !ok {
          return false, cmd;
        }
        assert ParseArgs(argv, rds, at) == ParseArgs(argv + [w], more, Rest());
        argv, rds := argv + [w], more;
      }
      return true, Wrap(Exec(argv), rds);
    }

    method Parseexec() returns (ok: bool, cmd: Cmd)
      requires Valid()
      modifies this
      ensures Valid() && s >= old(s) && Same(ok, cmd, Rest(), ParseExec(old(Rest())))
      decreases |line| - s, 0
    {
      hide SkipSpace, Shell.Gettoken, Next, ParseRedirs, ParseArgs, ParseLine, Wrap;
      RedirsAgain([], Rest());
      NextMoves(Rest(), '(');
      cmd := Exec([]);
      var block := See("(");
      var rds;
      if block {
        var _, _ := Gettoken();
        ok, cmd := Parseline();
        if !ok { return; }
        var close := See(")");
        if !close { return false, cmd; }
        var _, _ := Gettoken();
        ok, rds := Parseredirs([]);
        return ok, Wrap(cmd, rds);
      }
      ok, rds := Parseredirs([]);
      if !ok { return; }
      ok, cmd := Parseargs(rds);
    }

    method Parsepipe() returns (ok: bool, cmd: Cmd)
      requires Valid()
      modifies this
      ensures Valid() && s >= old(s) && Same(ok, cmd, Rest(), ParsePipe(old(Rest())))
      decreases |line| - s, 1
    {
      hide SkipSpace, Shell.Gettoken, Next, ParseExec;
      ok, cmd := Parseexec();
      if !ok { return; }
      NextMoves(Rest(), '|');
      var bar := See("|");
      if bar {
        var _, _ := Gettoken();
        var right;
        ok, right := Parsepipe();
        cmd := Pipe(cmd, right);
      }
    }

    method Parseline() returns (ok: bool, cmd: Cmd)
      requires Valid()
      modifies this
      ensures Valid() && s >= old(s) && Same(ok, cmd, Rest(), ParseLine(old(Rest())))
      decreases |line| - s, 2
    {
      hide SkipSpace, Shell.Gettoken, Next, ParsePipe;
      ok, cmd := Parsepipe();
      if !ok { return; }
      ghost var pipe, from := cmd, Rest();
      while true
        invariant Valid() && s >= old(s) && ParseBacks(cmd, Rest()) == ParseBacks(pipe, from)
        decreases |line| - s
      {
        NextMoves(Rest(), '&');
        var amp := See("&");
        if !amp { break; }
        var _, _ := Gettoken();
        cmd := Back(cmd);
      }
      NextMoves(Rest(), ';');
      var semi := See(";");
      if semi {
        var _, _ := Gettoken();
        var right;
        ok, right := Parseline();
        cmd := List(cmd, right);
      }
    }

    /** parsecmd up to nulterminate. */
    method Parsecmd() returns (ok: bool, cmd: Cmd)
      requires s == 0
      modifies this
      ensures Valid() && (ok <==> ParseCmd(line).Ok?) && (ok ==> cmd == ParseCmd(line).value)
    {
      assert Rest() == line;
      ok, cmd := Parseline();
      if ok {
        var _ := See("");
        ok := s == |line|;
      }
    }
  }

  lemma {:induction false} RedirsAgain(rds: seq<Rd>, s: string)
    ensures ParseRedirs(rds, SkipSpace(s)) == ParseRedirs(rds, s)
  {
    SkipAgain(s);
    hide SkipSpace, Gettoken;
  }

  lemma {:induction false} SkipAgain(s: string)
    ensures SkipSpace(SkipSpace(s)) == SkipSpace(s) && Gettoken(SkipSpace(s)) == Gettoken(s)
  {
  }

  // ----- nulterminate -----

  predicate HasWord(t: Cmd, w: Word) {
    match t
    case Exec(argv) => w in argv
    case Redir(cmd, file, _, _) => HasWord(cmd, w) || w == file
    case Pipe(left, right) => HasWord(left, w) || HasWord(right, w)
    case List(left, right) => HasWord(left, w) || HasWord(right, w)
    case Back(cmd) => HasWord(cmd, w)
  }

  /** The position just after a word in a line of n characters. */
  function EndPos(w: Word, n: nat): int {
    n - w.left + |w.text|
  }

  ghost predicate EndOf(t: Cmd, n: nat, i: int) {
    exists w :: HasWord(t, w) && EndPos(w, n) == i
  }

  predicate InLine(t: Cmd, n: nat) {
    match t
    case Exec(argv) => forall k :: 0 <= k < |argv| ==> |argv[k].text| <= argv[k].left <= n
    case Redir(cmd, file, _, _) => InLine(cmd, n) && |file.text| <= file.left <= n
    case Pipe(left, right) => InLine(left, n) && InLine(right, n)
    case List(left, right) => InLine(left, n) && InLine(right, n)
    case Back(cmd) => InLine(cmd, n)
  }

  method Nulterminate(buf: array<char>, n: nat, t: Cmd)
    requires n < buf.Length && InLine(t, n)
    modifies buf
    ensures forall i :: 0 <= i <= n ==> buf[i] == if EndOf(t, n, i) then '\0' else old(buf[i])
    ensures forall i :: n < i < buf.Length ==> buf[i] == old(buf[i])
    decreases t
  {
    match t
    case Exec(argv) =>
      var k := 0;
      while k < |argv|
        invariant 0 <= k <= |argv|
        invariant forall i :: 0 <= i <= n ==> buf[i] == if EndOf(Exec(argv[..k]), n, i) then '\0' else old(buf[i])
        invariant forall i :: n < i < buf.Length ==> buf[i] == old(buf[i])
      {
        OneMore(argv, k, n);
        buf[EndPos(argv[k], n)] := '\0';
        k := k + 1;
      }
      assert argv[..k] == argv;
    case Redir(cmd, file, _, _) =>
      Nulterminate(buf, n, cmd);
      buf[EndPos(file, n)] := '\0';
      assert HasWord(t, file);
      assert forall i :: EndOf(t, n, i) <==> EndOf(cmd, n, i) || EndPos(file, n) == i;
    case Pipe(left, right) =>
      Nulterminate(buf, n, left);
      Nulterminate(buf, n, right);
      assert forall i :: EndOf(t, n, i) <==> EndOf(left, n, i) || EndOf(right, n, i);
    case List(left, right) =>
      Nulterminate(buf, n, left);
      Nulterminate(buf, n, right);
      assert forall i :: EndOf(t, n, i) <==> EndOf(left, n, i) || EndOf(right, n, i);
    case Back(cmd) =>
      Nulterminate(buf, n, cmd);
      assert forall i :: EndOf(t, n, i) <==> EndOf(cmd, n, i);
  }

  lemma {:induction false} OneMore(argv: seq<Word>, k: nat, n: nat)
    requires k < |argv|
    ensures forall i :: EndOf(Exec(argv[..k + 1]), n, i) <==> EndOf(Exec(argv[..k]), n, i) || EndPos(argv[k], n) == i
  {
    assert argv[..k + 1] == argv[..k] + [argv[k]];
    forall i
      ensures EndOf(Exec(argv[..k + 1]), n, i) <==> EndOf(Exec(argv[..k]), n, i) || EndPos(argv[k], n) == i
    {
      assert HasWord(Exec(argv[..k + 1]), argv[k]);
      if EndOf(Exec(argv[..k]), n, i) {
        var w :| HasWord(Exec(argv[..k]), w) && EndPos(w, n) == i;
        assert HasWord(Exec(argv[..k + 1]), w);
      }
    }
  }

  lemma {:induction false} WordOf(line: string, t: Cmd, w: Word)
    requires AllWords(line, t) && HasWord(t, w)
    ensures WordAt(line, w)
    decreases t
  {
    match t
    case Exec(argv) =>
    case Redir(cmd, file, _, _) => if HasWord(cmd, w) { WordOf(line, cmd, w); }
    case Pipe(left, right) => if HasWord(left, w) { WordOf(line, left, w); } else { WordOf(line, right, w); }
    case List(left, right) => if HasWord(left, w) { WordOf(line, left, w); } else { WordOf(line, right, w); }
    case Back(cmd) => WordOf(line, cmd, w);
  }

  lemma {:induction false} WordsInLine(line: string, t: Cmd)
    requires AllWords(line, t)
    ensures InLine(t, |line|)
    decreases t
  {
    match t
    case Exec(argv) =>
      forall k | 0 <= k < |argv|
        ensures |argv[k].text| <= argv[k].left <= |line|
      {
        assert WordAt(line, argv[k]);
      }
    case Redir(cmd, file, _, _) => WordsInLine(line, cmd);
    case Pipe(left, right) => WordsInLine(line, left); WordsInLine(line, right);
    case List(left, right) => WordsInLine(line, left); WordsInLine(line, right);
    case Back(cmd) => WordsInLine(line, cmd);
  }

  /** Written over with a NUL after every word, the line holds each word as a C string: an end is never a word
      character. */
  lemma {:induction false} WordsSurvive(line: string, t: Cmd, after: string, w: Word)
    requires AllWords(line, t) && HasWord(t, w) && |after| == |line| + 1
    requires forall i :: 0 <= i < |line| ==> after[i] == if EndOf(t, |line|, i) then '\0' else line[i]
    requires after[|line|] == '\0'
    ensures WordAt(line, w) && after[|line| - w.left..EndPos(w, |line|)] == w.text && after[EndPos(w, |line|)] == '\0'
  {
    WordOf(line, t, w);
    var q, n := |line| - w.left, |line|;
    assert EndOf(t, n, EndPos(w, n));
    forall k | 0 <= k < |w.text|
      ensures after[q + k] == w.text[k]
    {
      assert w.text[k] == line[q + k] && WordChar(w.text[k]);
      EndNotWord(line, t, q + k);
      hide EndOf, AllWords, HasWord, WordChar;
    }
    hide EndOf, AllWords, HasWord, WordChar;
    assert after[q..EndPos(w, n)] == w.text;
  }

  /** What follows a word is the end of the line or not a word character. */
  lemma {:induction false} EndNotWord(line: string, t: Cmd, i: int)
    requires AllWords(line, t) && 0 <= i < |line| && WordChar(line[i])
    ensures !EndOf(t, |line|, i)
  {
    forall v | HasWord(t, v)
      ensures EndPos(v, |line|) != i
    {
      WordOf(line, t, v);
    }
  }

  /** The characters before the first NUL. */
  function CString(s: string): (r: string)
    ensures |r| <= |s| && r == s[..|r|] && '\0' !in r && (|r| < |s| ==> s[|r|] == '\0')
  {
    if s == "" || s[0] == '\0' then "" else [s[0]] + CString(s[1..])
  }

  lemma {:induction false} CStringAt(s: string, n: nat)
    requires n < |s| && s[n] == '\0' && '\0' !in s[..n]
    ensures CString(s) == s[..n]
  {
    var r := CString(s);
    assert forall k :: 0 <= k < n ==> s[..n][k] != '\0';
    assert forall k :: 0 <= k < |r| ==> r[k] != '\0';
  }

  method Strlen(buf: array<char>) returns (n: nat)
    requires '\0' in buf[..]
    ensures n < buf.Length && buf[n] == '\0' && buf[..n] == CString(buf[..])
  {
    n := 0;
    while n < buf.Length && buf[n] != '\0'
      invariant n <= buf.Length && '\0' !in buf[..n]
    {
      n := n + 1;
    }
    assert buf[..buf.Length] == buf[..];
    CStringAt(buf[..], n);
    assert buf[..][..n] == buf[..n];
  }

  /** parsecmd on a buffer that holds a C string. */
  method ReadCommand(buf: array<char>) returns (ok: bool, cmd: Cmd)
    requires '\0' in buf[..]
    modifies buf
    ensures ok <==> ParseCmd(old(CString(buf[..]))).Ok?
    ensures !ok ==> buf[..] == old(buf[..])
    ensures ok ==> cmd == ParseCmd(old(CString(buf[..]))).value
    ensures ok ==> forall w :: HasWord(cmd, w) ==> Terminated(buf[..], old(|CString(buf[..])|), w)
    ensures forall i :: old(|CString(buf[..])|) < i < buf.Length ==> buf[i] == old(buf[i])
  {
    hide ParseCmd, AllWords, InLine, HasWord, Terminated, EndOf, CString;
    var n := Strlen(buf);
    var line := buf[..n];
    NoNulIn(buf[..]);
    var parser := new Parser(line);
    ok, cmd := parser.Parsecmd();
    if ok {
      CommandWords(line);
      Nulterminate(buf, n, cmd);
      ghost var after := buf[..];
      forall w | HasWord(cmd, w)
        ensures Terminated(after, n, w)
      {
        WordIsString(line, cmd, after, w);
      }
    }
  }

  lemma {:induction false} CommandWords(line: string)
    requires ParseCmd(line).Ok?
    ensures AllWords(line, ParseCmd(line).value) && InLine(ParseCmd(line).value, |line|)
  {
    assert Suffix(line, line);
    LineAt(line, line);
    WordsInLine(line, ParseCmd(line).value);
  }

  lemma {:induction false} NoNulIn(s: string)
    ensures '\0' !in CString(s)
  {
  }

  lemma {:induction false} WordIsString(line: string, t: Cmd, after: string, w: Word)
    requires AllWords(line, t) && HasWord(t, w) && |after| > |line| && '\0' !in line
    requires forall i :: 0 <= i < |line| ==> after[i] == if EndOf(t, |line|, i) then '\0' else line[i]
    requires after[|line|] == '\0'
    ensures Terminated(after, |line|, w)
  {
    hide AllWords, HasWord, EndOf;
    var n := |line|;
    WordsSurvive(line, t, after[..n + 1], w);
    NoNuls(line, w);
    assert after[n - w.left..EndPos(w, n)] == after[..n + 1][n - w.left..EndPos(w, n)];
  }

  lemma {:induction false} NoNuls(line: string, w: Word)
    requires WordAt(line, w) && '\0' !in line
    ensures '\0' !in w.text && |w.text| <= w.left <= |line|
  {
    forall k | 0 <= k < |w.text| ensures w.text[k] in line {
    }
  }

  /** In a buffer with a line of n characters, the C string where w starts is its text. */
  predicate Terminated(after: string, n: nat, w: Word) {
    && n < |after| && |w.text| <= w.left <= n && '\0' !in w.text
    && after[n - w.left..EndPos(w, n)] == w.text && after[EndPos(w, n)] == '\0'
  }
}
