/** The shell's command language: what the parser of user/sh.c computes, on the part of the line still to read. */
module Shell {

  const MAXARGS := 10
  const O_RDONLY := 0x000
  const O_WRONLY := 0x001
  const O_CREATE := 0x200

  predicate Space(c: char) {
    c == ' ' || c == '\t' || c == '\r' || c == '\n' || c == '\U{000B}'
  }

  predicate Symbol(c: char) {
    c == '<' || c == '|' || c == '>' || c == '&' || c == ';' || c == '(' || c == ')'
  }

  predicate WordChar(c: char) {
    !Space(c) && !Symbol(c)
  }

  /** A word and the length of the line from its first character on. */
  datatype Word = Word(text: string, left: nat)

  datatype Cmd =
    | Exec(argv: seq<Word>)
    | Redir(cmd: Cmd, file: Word, mode: int, fd: int)
    | Pipe(left: Cmd, right: Cmd)
    | List(left: Cmd, right: Cmd)
    | Back(cmd: Cmd)

  datatype Result<T> = Ok(value: T, rest: string) | Panic

  // ----- tokens -----

  function SkipSpace(s: string): (r: string)
    ensures |r| <= |s| && (r != "" ==> !Space(r[0]))
  {
    if s != "" && Space(s[0]) then SkipSpace(s[1..]) else s
  }

  /** The length of the word that s starts with. */
  function WordLen(s: string): (n: nat)
    ensures n <= |s| && (s != "" && WordChar(s[0]) ==> n > 0)
  {
    if s != "" && WordChar(s[0]) then 1 + WordLen(s[1..]) else 0
  }

  datatype Token = End | Sym(c: char) | Append | Arg

  /** gettoken: the kind, the text from q to eq, and what is left after it. */
  function Gettoken(s: string): (r: (Token, Word, string))
    ensures |r.2| <= |s| && (r.0 != End ==> |r.2| < |s|)
  {
    var t := SkipSpace(s);
    if t == "" then (End, Word("", 0), "")
    else if t[0] == '>' && |t| > 1 && t[1] == '>' then (Append, Word(t[..2], |t|), SkipSpace(t[2..]))
    else if Symbol(t[0]) then (Sym(t[0]), Word(t[..1], |t|), SkipSpace(t[1..]))
    else
      var n := WordLen(t);
      (Arg, Word(t[..n], |t|), SkipSpace(t[n..]))
  }

  /** Is c the next character after white space? */
  predicate Next(s: string, c: char) {
    SkipSpace(s) != "" && SkipSpace(s)[0] == c
  }

  predicate NextRedir(s: string) {
    Next(s, '<') || Next(s, '>')
  }

  /** What ends a simple command. */
  predicate NextStop(s: string) {
    Next(s, '|') || Next(s, ')') || Next(s, '&') || Next(s, ';')
  }

  // ----- the grammar -----

  datatype Rd = Rd(file: Word, mode: int, fd: int)

  /** The first redirection is innermost. */
  function Wrap(cmd: Cmd, rds: seq<Rd>): Cmd {
    if rds == [] then cmd
    else Redir(Wrap(cmd, rds[..|rds| - 1]), rds[|rds| - 1].file, rds[|rds| - 1].mode, rds[|rds| - 1].fd)
  }

  /** parseredirs, after the redirections already read. */
  function ParseRedirs(rds: seq<Rd>, s: string): (r: Result<seq<Rd>>)
    ensures r.Ok? ==> |r.rest| <= |s|
    decreases |s|
  {
    if !NextRedir(s) then Ok(rds, SkipSpace(s))
    else
      var (tok, _, t) := Gettoken(s);
      var (kind, w, u) := Gettoken(t);
      if kind != Arg then Panic
      else ParseRedirs(rds + [if tok == Sym('<') then Rd(w, O_RDONLY, 0) else Rd(w, O_WRONLY + O_CREATE, 1)], u)
  }

  /** The loop of parseexec, after the arguments and redirections already read. */
  function ParseArgs(argv: seq<Word>, rds: seq<Rd>, s: string): (r: Result<Cmd>)
    ensures r.Ok? ==> |r.rest| <= |s|
    decreases |s|
  {
    if NextStop(s) then Ok(Wrap(Exec(argv), rds), SkipSpace(s))
    else
      var (tok, w, t) := Gettoken(s);
      if tok == End then Ok(Wrap(Exec(argv), rds), t)
      else if tok != Arg || |argv| + 1 >= MAXARGS then Panic
      else
        match ParseRedirs(rds, t)
        case Panic => Panic
        case Ok(more, u) => ParseArgs(argv + [w], more, u)
  }

  function ParseExec(s: string): (r: Result<Cmd>)
    ensures r.Ok? ==> |r.rest| <= |s|
    decreases |s|, 0
  {
    if Next(s, '(') then
      var (_, _, t) := Gettoken(s);
      match ParseLine(t)
      case Panic => Panic
      case Ok(cmd, u) =>
        if !Next(u, ')') then Panic
        else
          var (_, _, v) := Gettoken(u);
          match ParseRedirs([], v)
          case Panic => Panic
          case Ok(rds, w) => Ok(Wrap(cmd, rds), w)
    else
      match ParseRedirs([], s)
      case Panic => Panic
      case Ok(rds, t) => ParseArgs([], rds, t)
  }

  function ParsePipe(s: string): (r: Result<Cmd>)
    ensures r.Ok? ==> |r.rest| <= |s|
    decreases |s|, 1
  {
    match ParseExec(s)
    case Panic => Panic
    case Ok(cmd, t) =>
      if !Next(t, '|') then Ok(cmd, SkipSpace(t))
      else
        var (_, _, u) := Gettoken(t);
        match ParsePipe(u)
        case Panic => Panic
        case Ok(right, v) => Ok(Pipe(cmd, right), v)
  }

  function ParseBacks(cmd: Cmd, s: string): (r: (Cmd, string))
    ensures |r.1| <= |s|
    decreases |s|
  {
    if !Next(s, '&') then (cmd, SkipSpace(s))
    else
      var (_, _, t) := Gettoken(s);
      ParseBacks(Back(cmd), t)
  }

  function ParseLine(s: string): (r: Result<Cmd>)
    ensures r.Ok? ==> |r.rest| <= |s|
    decreases |s|, 2
  {
    match ParsePipe(s)
    case Panic => Panic
    case Ok(pipe, t) =>
      var (cmd, u) := ParseBacks(pipe, t);
      if !Next(u, ';') then Ok(cmd, SkipSpace(u))
      else
        var (_, _, v) := Gettoken(u);
        match ParseLine(v)
        case Panic => Panic
        case Ok(right, w) => Ok(List(cmd, right), w)
  }

  function ParseCmd(s: string): (r: Result<Cmd>)
    ensures r.Ok? ==> r.rest == ""
  {
    match ParseLine(s)
    case Panic => Panic
    case Ok(cmd, t) => if SkipSpace(t) == "" then Ok(cmd, "") else Panic
  }
}
