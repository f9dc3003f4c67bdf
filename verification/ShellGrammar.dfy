/** The language of the shell as a grammar with every way of writing a command: redirections anywhere among the words,
    with <, > or >>. The parser accepts exactly its sentences, and gives each its meaning. */
module ShellGrammar {
  import opened ShellLex
  import opened ShellParse

  datatype Op = In | Out | OutAppend

  datatype Red<W> = Red(op: Op, file: W)

  datatype Arg<W> = Arg(w: W, rs: seq<Red<W>>)

  datatype Elem<W> = Simple(rs: seq<Red<W>>, args: seq<Arg<W>>) | Group(line: Line<W>, rs: seq<Red<W>>)

  datatype Pipeline<W> = Single(e: Elem<W>) | Piped(e: Elem<W>, rest: Pipeline<W>)

  datatype Line<W> = Last(p: Pipeline<W>, amps: nat) | Then(p: Pipeline<W>, amps: nat, rest: Line<W>)

  // -------- Sentences --------

  function OpTok<W>(op: Op): Token<W> {
    match op
    case In => Sym('<')
    case Out => Sym('>')
    case OutAppend => Append
  }

  function RedToks<W>(rs: seq<Red<W>>): (ts: seq<Token<W>>)
    ensures |ts| == 2 * |rs|
    decreases |rs|
  {
    if rs == [] then [] else [OpTok(rs[0].op), Word(rs[0].file)] + RedToks(rs[1..])
  }

  function ArgToks<W>(args: seq<Arg<W>>): seq<Token<W>>
    decreases |args|
  {
    if args == [] then [] else [Word(args[0].w)] + (RedToks(args[0].rs) + ArgToks(args[1..]))
  }

  function ElemToks<W>(e: Elem<W>): seq<Token<W>>
    decreases e
  {
    match e
    case Simple(rs, args) => RedToks(rs) + ArgToks(args)
    case Group(line, rs) => [Sym('(')] + LineToks(line) + [Sym(')')] + RedToks(rs)
  }

  function PipeToks<W>(p: Pipeline<W>): seq<Token<W>>
    decreases p
  {
    match p
    case Single(e) => ElemToks(e)
    case Piped(e, rest) => ElemToks(e) + [Sym('|')] + PipeToks(rest)
  }

  function Amps<W>(n: nat): (ts: seq<Token<W>>)
    ensures |ts| == n
  {
    seq(n, _ => Sym('&'))
  }

  function LineToks<W>(l: Line<W>): seq<Token<W>>
    decreases l
  {
    match l
    case Last(p, amps) => PipeToks(p) + Amps(amps)
    case Then(p, amps, rest) => PipeToks(p) + Amps(amps) + [Sym(';')] + LineToks(rest)
  }

  /** No simple command has MAXARGS words or more. */
  predicate ElemOk<W>(e: Elem<W>)
    decreases e
  {
    match e
    case Simple(_, args) => |args| < MAXARGS
    case Group(line, _) => LineOk(line)
  }

  predicate PipeOk<W>(p: Pipeline<W>)
    decreases p
  {
    match p
    case Single(e) => ElemOk(e)
    case Piped(e, rest) => ElemOk(e) && PipeOk(rest)
  }

  predicate LineOk<W>(l: Line<W>)
    decreases l
  {
    match l
    case Last(p, _) => PipeOk(p)
    case Then(p, _, rest) => PipeOk(p) && LineOk(rest)
  }

  // -------- Meaning --------

  function Files<W>(rs: seq<Red<W>>): (fs: seq<(W, bool)>)
    ensures |fs| == |rs|
  {
    seq(|rs|, i requires 0 <= i < |rs| => (rs[i].file, rs[i].op != In))
  }

  function ArgWords<W>(args: seq<Arg<W>>): (ws: seq<W>)
    ensures |ws| == |args|
  {
    seq(|args|, i requires 0 <= i < |args| => args[i].w)
  }

  function ArgFiles<W>(args: seq<Arg<W>>): seq<(W, bool)>
    decreases |args|
  {
    if args == [] then [] else Files(args[0].rs) + ArgFiles(args[1..])
  }

  function ElemCmd<W>(e: Elem<W>): Cmd<W>
    decreases e
  {
    match e
    case Simple(rs, args) => Wrap(Exec(ArgWords(args)), Files(rs) + ArgFiles(args))
    case Group(line, rs) => Wrap(LineCmd(line), Files(rs))
  }

  function PipeCmd<W>(p: Pipeline<W>): Cmd<W>
    decreases p
  {
    match p
    case Single(e) => ElemCmd(e)
    case Piped(e, rest) => Pipe(ElemCmd(e), PipeCmd(rest))
  }

  function Backs<W>(c: Cmd<W>, n: nat): Cmd<W>
    decreases n
  {
    if n == 0 then c else Backs(Back(c), n - 1)
  }

  function LineCmd<W>(l: Line<W>): Cmd<W>
    decreases l
  {
    match l
    case Last(p, amps) => Backs(PipeCmd(p), amps)
    case Then(p, amps, rest) => List(Backs(PipeCmd(p), amps), LineCmd(rest))
  }

  // -------- The parser reads every sentence --------

  predicate Stands<W(==)>(ts: seq<Token<W>>, k: nat, us: seq<Token<W>>) {
    k + |us| <= |ts| && ts[k..k + |us|] == us
  }

  lemma StandsSplit<W>(ts: seq<Token<W>>, k: nat, a: seq<Token<W>>, b: seq<Token<W>>)
    ensures Stands(ts, k, a + b) <==> Stands(ts, k, a) && Stands(ts, k + |a|, b)
  {
    if Stands(ts, k, a + b) {
      assert ts[k..k + |a|] == (a + b)[..|a|] && ts[k + |a|..k + |a| + |b|] == (a + b)[|a|..];
    }
    if Stands(ts, k, a) && Stands(ts, k + |a|, b) {
      assert ts[k..k + |a| + |b|] == ts[k..k + |a|] + ts[k + |a|..k + |a| + |b|];
    }
  }

  lemma StandsOne<W>(ts: seq<Token<W>>, k: nat, u: Token<W>)
    ensures Stands(ts, k, [u]) <==> k < |ts| && ts[k] == u
  {
    if k < |ts| { assert ts[k..k + 1] == [ts[k]]; }
  }

  lemma {:induction false} ReadReds<W>(ts: seq<Token<W>>, k: nat, acc: seq<(W, bool)>, rs: seq<Red<W>>)
    requires Stands(ts, k, RedToks(rs)) && !IsRedir(ts, k + 2 * |rs|)
    ensures PRedirs(ts, k, acc) == Redirs.Files(acc + Files(rs), k + 2 * |rs|)
    decreases |rs|
  {
    if rs == [] {
      assert acc + Files(rs) == acc;
    } else {
      var op, w := OpTok(rs[0].op), Word(rs[0].file);
      StandsSplit(ts, k, [op, w], RedToks(rs[1..]));
      assert [op, w] == [op] + [w];
      StandsSplit(ts, k, [op], [w]);
      StandsOne(ts, k, op);
      StandsOne(ts, k + 1, w);
      var acc' := acc + [(rs[0].file, rs[0].op != In)];
      ReadReds(ts, k + 2, acc', rs[1..]);
      assert acc' + Files(rs[1..]) == acc + Files(rs);
    }
  }

  /** Words and what comes after them do not start with a redirection. */
  lemma {:induction false} AfterReds<W>(ts: seq<Token<W>>, k: nat, args: seq<Arg<W>>)
    requires Stands(ts, k, ArgToks(args)) && EndsExec(ts, k + |ArgToks(args)|)
    ensures !IsRedir(ts, k)
  {
    if args != [] {
      StandsSplit(ts, k, [Word(args[0].w)], RedToks(args[0].rs) + ArgToks(args[1..]));
      StandsOne(ts, k, Word(args[0].w));
    }
  }

  lemma {:induction false} ReadArgs<W>(ts: seq<Token<W>>, k: nat, ws: seq<W>, acc: seq<(W, bool)>, args: seq<Arg<W>>)
    requires Stands(ts, k, ArgToks(args)) && EndsExec(ts, k + |ArgToks(args)|) && |ws| + |args| < MAXARGS
    ensures PArgs(ts, k, ws, acc) == Ok(Wrap(Exec(ws + ArgWords(args)), acc + ArgFiles(args)), k + |ArgToks(args)|)
    decreases |args|
  {
    hide Stands, RedToks, PRedirs, Wrap, ArgWords, Files;
    if args == [] {
      NoArgs(ws, acc, args);
    } else {
      var a, rest := args[0], args[1..];
      FirstArg(ts, k, args);
      AfterReds(ts, k + 1 + 2 * |a.rs|, rest);
      ReadReds(ts, k + 1, acc, a.rs);
      ReadArgs(ts, k + 1 + 2 * |a.rs|, ws + [a.w], acc + Files(a.rs), rest);
      MoreArgs(ws, acc, args);
    }
  }

  lemma NoArgs<W>(ws: seq<W>, acc: seq<(W, bool)>, args: seq<Arg<W>>)
    requires args == []
    ensures ws + ArgWords(args) == ws && acc + ArgFiles(args) == acc
  {
  }

  lemma MoreArgs<W>(ws: seq<W>, acc: seq<(W, bool)>, args: seq<Arg<W>>)
    requires args != []
    ensures ws + [args[0].w] + ArgWords(args[1..]) == ws + ArgWords(args)
    ensures acc + Files(args[0].rs) + ArgFiles(args[1..]) == acc + ArgFiles(args)
  {
    assert ArgWords(args) == [args[0].w] + ArgWords(args[1..]);
    hide ArgWords, Files;
    Assoc(ws, [args[0].w], ArgWords(args[1..]));
    Assoc(acc, Files(args[0].rs), ArgFiles(args[1..]));
  }

  lemma Assoc<T>(a: seq<T>, b: seq<T>, c: seq<T>)
    ensures a + b + c == a + (b + c)
  {
  }

  lemma FirstArg<W>(ts: seq<Token<W>>, k: nat, args: seq<Arg<W>>)
    requires args != []
    ensures |ArgToks(args)| == 1 + 2 * |args[0].rs| + |ArgToks(args[1..])|
    ensures Stands(ts, k, ArgToks(args)) <==>
            && k < |ts| && ts[k] == Word(args[0].w) && Stands(ts, k + 1, RedToks(args[0].rs))
            && Stands(ts, k + 1 + 2 * |args[0].rs|, ArgToks(args[1..]))
  {
    hide Stands, RedToks;
    var a, rest := args[0], args[1..];
    StandsSplit(ts, k, [Word(a.w)], RedToks(a.rs) + ArgToks(rest));
    StandsOne(ts, k, Word(a.w));
    StandsSplit(ts, k + 1, RedToks(a.rs), ArgToks(rest));
  }

  lemma {:induction false} ReadElem<W>(ts: seq<Token<W>>, k: nat, e: Elem<W>)
    requires ElemOk(e) && Stands(ts, k, ElemToks(e)) && EndsExec(ts, k + |ElemToks(e)|)
    ensures PExec(ts, k) == Ok(ElemCmd(e), k + |ElemToks(e)|)
    decreases e
  {
    hide Stands, Files, RedToks, PRedirs, PArgs, Wrap;
    match e
    case Simple(rs, args) => ReadSimple(ts, k, rs, args);
    case Group(line, rs) =>
      GroupParts(ts, k, line, rs);
      ReadLine(ts, k + 1, line);
      ReadReds(ts, k + 2 + |LineToks(line)|, [], rs);
      assert [] + Files(rs) == Files(rs);
  }

  lemma {:induction false} ReadSimple<W>(ts: seq<Token<W>>, k: nat, rs: seq<Red<W>>, args: seq<Arg<W>>)
    requires |args| < MAXARGS && Stands(ts, k, RedToks(rs) + ArgToks(args))
    requires EndsExec(ts, k + 2 * |rs| + |ArgToks(args)|)
    ensures PExec(ts, k) == Ok(Wrap(Exec(ArgWords(args)), Files(rs) + ArgFiles(args)), k + 2 * |rs| + |ArgToks(args)|)
  {
    hide Stands, RedToks, ArgToks, PRedirs, PArgs, PBlock, Wrap;
    StandsSplit(ts, k, RedToks(rs), ArgToks(args));
    AfterReds(ts, k + 2 * |rs|, args);
    NoParen(ts, k, rs, args);
    ReadReds(ts, k, [], rs);
    assert [] + Files(rs) == Files(rs);
    ReadArgs(ts, k + 2 * |rs|, [], Files(rs), args);
    assert [] + ArgWords(args) == ArgWords(args);
  }

  lemma GroupParts<W>(ts: seq<Token<W>>, k: nat, line: Line<W>, rs: seq<Red<W>>)
    ensures |ElemToks(Group(line, rs))| == |LineToks(line)| + 2 + 2 * |rs|
    ensures var m := k + 1 + |LineToks(line)|;
      Stands(ts, k, ElemToks(Group(line, rs))) <==>
        IsSym(ts, k, '(') && Stands(ts, k + 1, LineToks(line)) && IsSym(ts, m, ')') && Stands(ts, m + 1, RedToks(rs))
  {
    hide Stands, LineToks, RedToks;
    var inner := LineToks(line);
    assert ElemToks(Group(line, rs)) == [Sym('(')] + (inner + ([Sym(')')] + RedToks(rs)));
    StandsSplit(ts, k, [Sym('(')], inner + ([Sym(')')] + RedToks(rs)));
    StandsSplit(ts, k + 1, inner, [Sym(')')] + RedToks(rs));
    StandsSplit(ts, k + 1 + |inner|, [Sym(')')], RedToks(rs));
    StandsOne(ts, k, Sym('('));
    StandsOne(ts, k + 1 + |inner|, Sym(')'));
  }

  lemma {:induction false} NoParen<W>(ts: seq<Token<W>>, k: nat, rs: seq<Red<W>>, args: seq<Arg<W>>)
    requires Stands(ts, k, RedToks(rs)) && Stands(ts, k + 2 * |rs|, ArgToks(args))
    requires EndsExec(ts, k + 2 * |rs| + |ArgToks(args)|)
    ensures !IsSym(ts, k, '(')
  {
    if rs != [] {
      assert ts[k] == RedToks(rs)[0];
    } else if args != [] {
      assert ts[k] == ArgToks(args)[0];
    }
  }

  lemma {:induction false} ReadPipe<W>(ts: seq<Token<W>>, k: nat, p: Pipeline<W>)
    requires PipeOk(p) && Stands(ts, k, PipeToks(p)) && EndsLine(ts, k + |PipeToks(p)|)
    ensures PPipe(ts, k) == Ok(PipeCmd(p), k + |PipeToks(p)|)
    decreases p, 0
  {
    hide Stands;
    match p
    case Single(e) => ReadElem(ts, k, e);
    case Piped(e, rest) =>
      PipedParts(ts, k, e, rest);
      ReadElem(ts, k, e);
      ReadPipe(ts, k + |ElemToks(e)| + 1, rest);
  }

  lemma PipedParts<W>(ts: seq<Token<W>>, k: nat, e: Elem<W>, rest: Pipeline<W>)
    ensures |PipeToks(Piped(e, rest))| == |ElemToks(e)| + 1 + |PipeToks(rest)|
    ensures var m := k + |ElemToks(e)|;
      Stands(ts, k, PipeToks(Piped(e, rest))) <==>
        Stands(ts, k, ElemToks(e)) && IsSym(ts, m, '|') && Stands(ts, m + 1, PipeToks(rest))
  {
    hide Stands, ElemToks;
    assert PipeToks(Piped(e, rest)) == ElemToks(e) + ([Sym('|')] + PipeToks(rest));
    StandsSplit(ts, k, ElemToks(e), [Sym('|')] + PipeToks(rest));
    StandsSplit(ts, k + |ElemToks(e)|, [Sym('|')], PipeToks(rest));
    StandsOne(ts, k + |ElemToks(e)|, Sym('|'));
  }

  /** No token, or one that may come after a pipeline. */
  predicate EndsLine<W>(ts: seq<Token<W>>, k: nat) {
    k >= |ts| || (ts[k].Sym? && (ts[k].c == ')' || ts[k].c == '&' || ts[k].c == ';'))
  }

  lemma {:induction false} ReadAmps<W>(ts: seq<Token<W>>, k: nat, c: Cmd<W>, n: nat)
    requires Stands(ts, k, Amps(n)) && !IsSym(ts, k + n, '&')
    ensures PAmps(ts, k, c) == Ok(Backs(c, n), k + n)
    decreases n
  {
    if n > 0 {
      assert Amps<W>(n) == [Sym('&')] + Amps(n - 1);
      StandsSplit(ts, k, [Sym('&')], Amps(n - 1));
      StandsOne(ts, k, Sym('&'));
      ReadAmps(ts, k + 1, Back(c), n - 1);
    }
  }

  lemma {:induction false} ReadBack<W>(ts: seq<Token<W>>, k: nat, p: Pipeline<W>, n: nat)
    requires PipeOk(p) && Stands(ts, k, PipeToks(p)) && Stands(ts, k + |PipeToks(p)|, Amps(n))
    requires EndsLine(ts, k + |PipeToks(p)| + n) && !IsSym(ts, k + |PipeToks(p)| + n, '&')
    ensures PBack(ts, k) == Ok(Backs(PipeCmd(p), n), k + |PipeToks(p)| + n)
    decreases p, 1
  {
    if n > 0 {
      assert ts[k + |PipeToks(p)|] == Amps<W>(n)[0];
    }
    hide Stands;
    ReadPipe(ts, k, p);
    ReadAmps(ts, k + |PipeToks(p)|, PipeCmd(p), n);
  }

  lemma {:induction false} ReadLine<W>(ts: seq<Token<W>>, k: nat, l: Line<W>)
    requires LineOk(l) && Stands(ts, k, LineToks(l)) && (k + |LineToks(l)| >= |ts| || IsSym(ts, k + |LineToks(l)|, ')'))
    ensures PLine(ts, k) == Ok(LineCmd(l), k + |LineToks(l)|)
    decreases l
  {
    hide Stands, PBack;
    match l
    case Last(p, amps) =>
      StandsSplit(ts, k, PipeToks(p), Amps(amps));
      ReadBack(ts, k, p, amps);
    case Then(p, amps, rest) =>
      ThenParts(ts, k, p, amps, rest);
      ReadBack(ts, k, p, amps);
      ReadLine(ts, k + |PipeToks(p)| + amps + 1, rest);
  }

  lemma ThenParts<W>(ts: seq<Token<W>>, k: nat, p: Pipeline<W>, amps: nat, rest: Line<W>)
    ensures |LineToks(Then(p, amps, rest))| == |PipeToks(p)| + amps + 1 + |LineToks(rest)|
    ensures var m := k + |PipeToks(p)|;
      Stands(ts, k, LineToks(Then(p, amps, rest))) <==>
        && Stands(ts, k, PipeToks(p)) && Stands(ts, m, Amps(amps)) && IsSym(ts, m + amps, ';')
        && Stands(ts, m + amps + 1, LineToks(rest))
  {
    hide Stands, PipeToks;
    var a, b := PipeToks(p), Amps(amps);
    assert LineToks(Then(p, amps, rest)) == a + (b + ([Sym(';')] + LineToks(rest)));
    StandsSplit(ts, k, a, b + ([Sym(';')] + LineToks(rest)));
    StandsSplit(ts, k + |a|, b, [Sym(';')] + LineToks(rest));
    StandsSplit(ts, k + |a| + |b|, [Sym(';')], LineToks(rest));
    StandsOne(ts, k + |a| + |b|, Sym(';'));
  }

  // -------- What the parser accepts is a sentence --------

  function OpOf<W>(t: Token<W>): Op {
    if t == Append then OutAppend else if t == Sym('>') then Out else In
  }

  lemma {:induction false} FindReds<W>(ts: seq<Token<W>>, k: nat, acc: seq<(W, bool)>) returns (rs: seq<Red<W>>)
    requires k <= |ts| && PRedirs(ts, k, acc).Files?
    ensures var r := PRedirs(ts, k, acc);
      r.rs == acc + Files(rs) && r.at == k + 2 * |rs| && Stands(ts, k, RedToks(rs)) && !IsRedir(ts, r.at)
    decreases |ts| - k
  {
    if !IsRedir(ts, k) {
      rs := [];
      assert acc + Files(rs) == acc;
    } else {
      var op, w := OpOf(ts[k]), ts[k + 1].w;
      var rest := FindReds(ts, k + 2, acc + [(w, op != In)]);
      rs := [Red(op, w)] + rest;
      assert rs[1..] == rest;
      assert acc + [(w, op != In)] + Files(rest) == acc + Files(rs);
      assert OpTok(op) == ts[k];
      StandsSplit(ts, k, [OpTok(op), Word(w)], RedToks(rest));
      assert ts[k..k + 2] == [OpTok(op), Word(w)];
    }
  }

  lemma {:induction false} FindArgs<W>(ts: seq<Token<W>>, k: nat, ws: seq<W>, acc: seq<(W, bool)>)
    returns (args: seq<Arg<W>>)
    requires k <= |ts| && |ws| < MAXARGS && PArgs(ts, k, ws, acc).Ok?
    ensures var r := PArgs(ts, k, ws, acc);
      && r.cmd == Wrap(Exec(ws + ArgWords(args)), acc + ArgFiles(args)) && r.at == k + |ArgToks(args)|
      && Stands(ts, k, ArgToks(args)) && |ws| + |args| < MAXARGS && EndsExec(ts, r.at)
    decreases |ts| - k
  {
    hide Stands, RedToks, PRedirs, Wrap, ArgWords, Files;
    if EndsExec(ts, k) {
      args := [];
      NoArgs(ws, acc, args);
      StandsNone(ts, k);
    } else {
      var rs := FindReds(ts, k + 1, acc);
      var rest := FindArgs(ts, k + 1 + 2 * |rs|, ws + [ts[k].w], acc + Files(rs));
      args := [Arg(ts[k].w, rs)] + rest;
      assert args[0] == Arg(ts[k].w, rs) && args[1..] == rest;
      FirstArg(ts, k, args);
      MoreArgs(ws, acc, args);
    }
  }

  lemma StandsNone<W>(ts: seq<Token<W>>, k: nat)
    requires k <= |ts|
    ensures Stands(ts, k, [])
  {
  }

  lemma {:induction false} FindSimple<W>(ts: seq<Token<W>>, k: nat) returns (e: Elem<W>)
    requires k <= |ts| && !IsSym(ts, k, '(') && PExec(ts, k).Ok?
    ensures ElemOk(e) && PExec(ts, k) == Ok(ElemCmd(e), k + |ElemToks(e)|) && Stands(ts, k, ElemToks(e))
  {
    hide Stands, RedToks, ArgToks, PRedirs, PArgs, Wrap, PBlock;
    var rs := FindReds(ts, k, []);
    assert [] + Files(rs) == Files(rs);
    var args := FindArgs(ts, k + 2 * |rs|, [], Files(rs));
    assert [] + ArgWords(args) == ArgWords(args);
    e := Simple(rs, args);
    StandsSplit(ts, k, RedToks(rs), ArgToks(args));
  }

  lemma {:induction false} FindElem<W>(ts: seq<Token<W>>, k: nat) returns (e: Elem<W>)
    requires k <= |ts| && PExec(ts, k).Ok?
    ensures ElemOk(e) && PExec(ts, k) == Ok(ElemCmd(e), k + |ElemToks(e)|) && Stands(ts, k, ElemToks(e))
    decreases |ts| - k, 0
  {
    hide Stands, RedToks, PRedirs, PArgs, Wrap;
    if IsSym(ts, k, '(') {
      var line := FindLine(ts, k + 1);
      var rs := FindReds(ts, k + 2 + |LineToks(line)|, []);
      assert [] + Files(rs) == Files(rs);
      e := Group(line, rs);
      GroupParts(ts, k, line, rs);
    } else {
      e := FindSimple(ts, k);
    }
  }

  lemma {:induction false} FindPipe<W>(ts: seq<Token<W>>, k: nat) returns (p: Pipeline<W>)
    requires k <= |ts| && PPipe(ts, k).Ok?
    ensures PipeOk(p) && PPipe(ts, k) == Ok(PipeCmd(p), k + |PipeToks(p)|) && Stands(ts, k, PipeToks(p))
    decreases |ts| - k, 1
  {
    hide Stands, PExec, ElemToks;
    var e := FindElem(ts, k);
    var at := k + |ElemToks(e)|;
    if IsSym(ts, at, '|') {
      var rest := FindPipe(ts, at + 1);
      p := Piped(e, rest);
      PipedParts(ts, k, e, rest);
    } else {
      p := Single(e);
    }
  }

  lemma {:induction false} FindAmps<W>(ts: seq<Token<W>>, k: nat, c: Cmd<W>) returns (n: nat)
    requires k <= |ts|
    ensures PAmps(ts, k, c) == Ok(Backs(c, n), k + n) && Stands(ts, k, Amps(n))
    decreases |ts| - k
  {
    if IsSym(ts, k, '&') {
      n := FindAmps(ts, k + 1, Back(c));
      n := n + 1;
      assert Amps<W>(n) == [Sym('&')] + Amps(n - 1);
      StandsSplit(ts, k, [Sym('&')], Amps(n - 1));
      StandsOne(ts, k, Sym('&'));
    } else {
      n := 0;
    }
  }

  lemma {:induction false} FindLine<W>(ts: seq<Token<W>>, k: nat) returns (l: Line<W>)
    requires k <= |ts| && PLine(ts, k).Ok?
    ensures LineOk(l) && PLine(ts, k) == Ok(LineCmd(l), k + |LineToks(l)|) && Stands(ts, k, LineToks(l))
    decreases |ts| - k, 2
  {
    hide Stands, PPipe, PipeToks;
    var p := FindPipe(ts, k);
    var amps := FindAmps(ts, k + |PipeToks(p)|, PipeCmd(p));
    var at := k + |PipeToks(p)| + amps;
    if IsSym(ts, at, ';') {
      var rest := FindLine(ts, at + 1);
      l := Then(p, amps, rest);
      ThenParts(ts, k, p, amps, rest);
    } else {
      l := Last(p, amps);
      StandsSplit(ts, k, PipeToks(p), Amps(amps));
    }
  }

  // -------- The language --------

  ghost predicate Sentence<W(!new)>(ts: seq<Token<W>>, c: Cmd<W>) {
    exists l: Line<W> :: LineOk(l) && LineToks(l) == ts && LineCmd(l) == c
  }

  /** parsecmd accepts exactly the sentences of the grammar, each with its meaning; every other line is refused. */
  lemma {:induction false} Accepts<W(!new)>(ts: seq<Token<W>>, c: Cmd<W>)
    ensures PCmd(ts) == Ok(c, |ts|) <==> Sentence(ts, c)
    ensures PCmd(ts).Panic? <==> forall d :: !Sentence(ts, d)
  {
    if PCmd(ts).Ok? {
      var l := FindLine(ts, 0);
      assert LineToks(l) == ts[0..|ts|] == ts;
      assert Sentence(ts, PCmd(ts).cmd);
    }
    forall d | Sentence(ts, d) ensures PCmd(ts) == Ok(d, |ts|) {
      var l: Line<W> :| LineOk(l) && LineToks(l) == ts && LineCmd(l) == d;
      assert ts[0..|ts|] == ts;
      ReadLine(ts, 0, l);
    }
  }

  // -------- >> --------

  function Plain<W>(ts: seq<Token<W>>): (r: seq<Token<W>>)
    ensures |r| == |ts|
  {
    seq(|ts|, i requires 0 <= i < |ts| => if ts[i].Append? then Sym('>') else ts[i])
  }

  lemma {:induction false} PlainReds<W>(ts: seq<Token<W>>, k: nat, rs: seq<(W, bool)>)
    requires k <= |ts|
    ensures PRedirs(Plain(ts), k, rs) == PRedirs(ts, k, rs)
    decreases |ts| - k
  {
    if IsRedir(ts, k) && k + 1 < |ts| && ts[k + 1].Word? {
      PlainReds(ts, k + 2, rs + [(ts[k + 1].w, ts[k] != Sym('<'))]);
    }
  }

  lemma {:induction false} PlainArgs<W>(ts: seq<Token<W>>, k: nat, ws: seq<W>, rs: seq<(W, bool)>)
    requires k <= |ts|
    ensures PArgs(Plain(ts), k, ws, rs) == PArgs(ts, k, ws, rs)
    decreases |ts| - k
  {
    if !EndsExec(ts, k) && ts[k].Word? {
      PlainReds(ts, k + 1, rs);
      var r := PRedirs(ts, k + 1, rs);
      if r.Files? { PlainArgs(ts, r.at, ws + [ts[k].w], r.rs); }
    }
  }

  lemma {:induction false} PlainExec<W>(ts: seq<Token<W>>, k: nat)
    requires k <= |ts|
    ensures PExec(Plain(ts), k) == PExec(ts, k)
    decreases |ts| - k, 0
  {
    hide PRedirs, PArgs;
    if IsSym(ts, k, '(') {
      PlainLine(ts, k + 1);
      var r := PLine(ts, k + 1);
      if r.Ok? && IsSym(ts, r.at, ')') { PlainReds(ts, r.at + 1, []); }
    } else {
      PlainReds(ts, k, []);
      var r := PRedirs(ts, k, []);
      if r.Files? { PlainArgs(ts, r.at, [], r.rs); }
    }
  }

  lemma {:induction false} PlainPipe<W>(ts: seq<Token<W>>, k: nat)
    requires k <= |ts|
    ensures PPipe(Plain(ts), k) == PPipe(ts, k)
    decreases |ts| - k, 1
  {
    hide PExec;
    PlainExec(ts, k);
    var r := PExec(ts, k);
    if r.Ok? && IsSym(ts, r.at, '|') { PlainPipe(ts, r.at + 1); }
  }

  lemma {:induction false} PlainAmps<W>(ts: seq<Token<W>>, k: nat, c: Cmd<W>)
    requires k <= |ts|
    ensures PAmps(Plain(ts), k, c) == PAmps(ts, k, c)
    decreases |ts| - k
  {
    if IsSym(ts, k, '&') { PlainAmps(ts, k + 1, Back(c)); }
  }

  lemma {:induction false} PlainLine<W>(ts: seq<Token<W>>, k: nat)
    requires k <= |ts|
    ensures PLine(Plain(ts), k) == PLine(ts, k)
    decreases |ts| - k, 2
  {
    hide PPipe, PAmps;
    PlainPipe(ts, k);
    var r := PPipe(ts, k);
    if r.Ok? {
      PlainAmps(ts, r.at, r.cmd);
      var b := PAmps(ts, r.at, r.cmd);
      if IsSym(ts, b.at, ';') { PlainLine(ts, b.at + 1); }
    }
  }

  /** Every line reads as it does with > for >>. */
  lemma {:induction false} AppendIsOutput<W>(ts: seq<Token<W>>)
    ensures PCmd(Plain(ts)) == PCmd(ts)
  {
    PlainLine(ts, 0);
  }
}
