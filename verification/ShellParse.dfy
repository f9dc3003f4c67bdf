/** The grammar that parsecmd of sh.c accepts, over tokens; and its printer, which the parser inverts. */
module ShellParse {
  import opened ShellLex

  const MAXARGS := 10

  /** A command. A redirection is for input (O_RDONLY, descriptor 0) or for output
      (O_WRONLY|O_CREATE, descriptor 1; the operators > and >> build the same node). */
  datatype Cmd<W> =
    | Exec(argv: seq<W>)
    | Redir(cmd: Cmd<W>, file: W, output: bool)
    | Pipe(left: Cmd<W>, right: Cmd<W>)
    | List(left: Cmd<W>, right: Cmd<W>)
    | Back(cmd: Cmd<W>)

  /** A command and the token after it, or a call of panic. */
  datatype Parsed<W> = Ok(cmd: Cmd<W>, at: nat) | Panic(msg: string)

  /** Redirections read so far and the token after them, or a missing file name. */
  datatype Redirs<W> = Files(rs: seq<(W, bool)>, at: nat) | NoFile

  const MISSING_FILE := "missing file for redirection"
  const SYNTAX := "syntax"
  const TOO_MANY := "too many args"
  const MISSING_PAREN := "syntax - missing )"

  predicate IsSym<W>(ts: seq<Token<W>>, k: nat, c: char) {
    k < |ts| && ts[k].Sym? && ts[k].c == c
  }

  predicate IsRedir<W>(ts: seq<Token<W>>, k: nat) {
    k < |ts| && (ts[k].Append? || (ts[k].Sym? && (ts[k].c == '<' || ts[k].c == '>')))
  }

  /** No token, or one of those that end a simple command (sh.c:628). */
  predicate EndsExec<W>(ts: seq<Token<W>>, k: nat) {
    k >= |ts| || (ts[k].Sym? && (ts[k].c == '|' || ts[k].c == ')' || ts[k].c == '&' || ts[k].c == ';'))
  }

  /** Redirections around a command, the last outermost. */
  function Wrap<W>(c: Cmd<W>, rs: seq<(W, bool)>): Cmd<W>
    decreases |rs|
  {
    if rs == [] then c else Redir(Wrap(c, rs[..|rs| - 1]), rs[|rs| - 1].0, rs[|rs| - 1].1)
  }

  /** parseredirs (sh.c:571-594) */
  function PRedirs<W>(ts: seq<Token<W>>, k: nat, rs: seq<(W, bool)>): (r: Redirs<W>)
    requires k <= |ts|
    ensures r.Files? ==> k <= r.at <= |ts|
    decreases |ts| - k
  {
    if !IsRedir(ts, k) then Files(rs, k)
    else if k + 1 < |ts| && ts[k + 1].Word? then PRedirs(ts, k + 2, rs + [(ts[k + 1].w, ts[k] != Sym('<'))])
    else NoFile
  }

  /** The loop of parseexec (sh.c:628-642) */
  function PArgs<W>(ts: seq<Token<W>>, k: nat, args: seq<W>, rs: seq<(W, bool)>): (r: Parsed<W>)
    requires k <= |ts|
    ensures r.Ok? ==> k <= r.at <= |ts|
    decreases |ts| - k
  {
    if EndsExec(ts, k) then Ok(Wrap(Exec(args), rs), k)
    else if !ts[k].Word? then Panic(SYNTAX)
    else if |args| + 1 >= MAXARGS then Panic(TOO_MANY)
    else
      match PRedirs(ts, k + 1, rs)
      case NoFile => Panic(MISSING_FILE)
      case Files(more, at) => PArgs(ts, at, args + [ts[k].w], more)
  }

  /** parseexec (sh.c:612-643) */
  function PExec<W>(ts: seq<Token<W>>, k: nat): (r: Parsed<W>)
    requires k <= |ts|
    ensures r.Ok? ==> k <= r.at <= |ts|
    decreases |ts| - k, 0
  {
    if IsSym(ts, k, '(') then PBlock(ts, k)
    else
      match PRedirs(ts, k, [])
      case NoFile => Panic(MISSING_FILE)
      case Files(rs, at) => PArgs(ts, at, [], rs)
  }

  /** parseblock (sh.c:596-610) */
  function PBlock<W>(ts: seq<Token<W>>, k: nat): (r: Parsed<W>)
    requires IsSym(ts, k, '(')
    ensures r.Ok? ==> k <= r.at <= |ts|
    decreases |ts| - k - 1, 4
  {
    match PLine(ts, k + 1)
    case Panic(m) => Panic(m)
    case Ok(c, at) =>
      if !IsSym(ts, at, ')') then Panic(MISSING_PAREN)
      else
        match PRedirs(ts, at + 1, [])
        case NoFile => Panic(MISSING_FILE)
        case Files(rs, next) => Ok(Wrap(c, rs), next)
  }

  /** parsepipe (sh.c:558-569) */
  function PPipe<W>(ts: seq<Token<W>>, k: nat): (r: Parsed<W>)
    requires k <= |ts|
    ensures r.Ok? ==> k <= r.at <= |ts|
    decreases |ts| - k, 1
  {
    match PExec(ts, k)
    case Panic(m) => Panic(m)
    case Ok(c, at) =>
      if !IsSym(ts, at, '|') then Ok(c, at)
      else
        match PPipe(ts, at + 1)
        case Panic(m) => Panic(m)
        case Ok(d, next) => Ok(Pipe(c, d), next)
  }

  /** sh.c:547-550 */
  function PAmps<W>(ts: seq<Token<W>>, k: nat, c: Cmd<W>): (r: Parsed<W>)
    requires k <= |ts|
    ensures r.Ok? && k <= r.at <= |ts|
    decreases |ts| - k
  {
    if IsSym(ts, k, '&') then PAmps(ts, k + 1, Back(c)) else Ok(c, k)
  }

  function PBack<W>(ts: seq<Token<W>>, k: nat): (r: Parsed<W>)
    requires k <= |ts|
    ensures r.Ok? ==> k <= r.at <= |ts|
    decreases |ts| - k, 2
  {
    match PPipe(ts, k)
    case Panic(m) => Panic(m)
    case Ok(c, at) => PAmps(ts, at, c)
  }

  /** parseline (sh.c:541-556) */
  function PLine<W>(ts: seq<Token<W>>, k: nat): (r: Parsed<W>)
    requires k <= |ts|
    ensures r.Ok? ==> k <= r.at <= |ts|
    decreases |ts| - k, 3
  {
    match PBack(ts, k)
    case Panic(m) => Panic(m)
    case Ok(c, at) =>
      if !IsSym(ts, at, ';') then Ok(c, at)
      else
        match PLine(ts, at + 1)
        case Panic(m) => Panic(m)
        case Ok(d, next) => Ok(List(c, d), next)
  }

  /** parsecmd (sh.c:524-536) */
  function PCmd<W>(ts: seq<Token<W>>): (r: Parsed<W>) {
    match PLine(ts, 0)
    case Panic(m) => Panic(m)
    case Ok(c, at) => if at == |ts| then Ok(c, at) else Panic(SYNTAX)
  }

  // -------- Printing --------

  /** How loosely a command binds: 3 for lists, 2 for background, 1 for pipes. */
  function Level(t: Cmd<string>): nat {
    match t
    case List(_, _) => 3
    case Back(_) => 2
    case Pipe(_, _) => 1
    case _ => 0
  }

  function Words(ws: seq<string>): (ts: seq<Token<string>>)
    ensures |ts| == |ws|
  {
    seq(|ws|, i requires 0 <= i < |ws| => Word(ws[i]))
  }

  function RedirSym(output: bool): Token<string> {
    Sym(if output then '>' else '<')
  }

  /** The tokens of a command where one of level l may stand, with parentheses only where they are needed. */
  function Toks(t: Cmd<string>, l: nat): seq<Token<string>>
    decreases t, if Level(t) > l then 1 else 0
  {
    if Level(t) > l then [Sym('(')] + Toks(t, 3) + [Sym(')')]
    else
      match t
      case Exec(ws) => Words(ws)
      case Redir(c, f, o) => Toks(c, 0) + [RedirSym(o), Word(f)]
      case Pipe(a, b) => Toks(a, 0) + [Sym('|')] + Toks(b, 1)
      case Back(c) => Toks(c, 2) + [Sym('&')]
      case List(a, b) => Toks(a, 2) + [Sym(';')] + Toks(b, 3)
  }

  /** The commands the parser can build: proper words, and at most MAXARGS - 1 in one simple command. */
  predicate WellFormed(t: Cmd<string>) {
    match t
    case Exec(ws) => |ws| < MAXARGS && forall i :: 0 <= i < |ws| ==> WordOk(ws[i])
    case Redir(c, f, _) => WordOk(f) && WellFormed(c)
    case Back(c) => WellFormed(c)
    case Pipe(a, b) => WellFormed(a) && WellFormed(b)
    case List(a, b) => WellFormed(a) && WellFormed(b)
  }

  function Print(t: Cmd<string>): string {
    Render(Toks(t, 3))
  }
}
