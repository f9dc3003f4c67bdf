/** The parser of sh.c undoes the printer: every command is what its printed form parses to. */
module ShellRound {
  import opened ShellLex
  import opened ShellParse

  function Texts(s: string, ws: seq<Span>): (r: seq<string>)
    ensures |r| == |ws|
  {
    seq(|ws|, i requires 0 <= i < |ws| => Text(s, ws[i]))
  }

  function FileTexts(s: string, rs: seq<(Span, bool)>): (r: seq<(string, bool)>)
    ensures |r| == |rs|
  {
    seq(|rs|, i requires 0 <= i < |rs| => (Text(s, rs[i].0), rs[i].1))
  }

  /** A parsed command with the text of its words. */
  function CmdText(s: string, c: Cmd<Span>): Cmd<string> {
    match c
    case Exec(ws) => Exec(Texts(s, ws))
    case Redir(d, f, o) => Redir(CmdText(s, d), Text(s, f), o)
    case Pipe(a, b) => Pipe(CmdText(s, a), CmdText(s, b))
    case List(a, b) => List(CmdText(s, a), CmdText(s, b))
    case Back(d) => Back(CmdText(s, d))
  }

  lemma {:induction false} WrapText(s: string, c: Cmd<Span>, rs: seq<(Span, bool)>)
    ensures CmdText(s, Wrap(c, rs)) == Wrap(CmdText(s, c), FileTexts(s, rs))
    decreases |rs|
  {
    if rs != [] {
      WrapText(s, c, rs[..|rs| - 1]);
      assert FileTexts(s, rs)[..|rs| - 1] == FileTexts(s, rs[..|rs| - 1]);
    }
  }

  // -------- Redirections at the end of a simple command --------

  function Core(t: Cmd<string>): (c: Cmd<string>)
    ensures !c.Redir?
  {
    if t.Redir? then Core(t.cmd) else t
  }

  function Tail(t: Cmd<string>): seq<(string, bool)> {
    if t.Redir? then Tail(t.cmd) + [(t.file, t.output)] else []
  }

  function RedirToks(rs: seq<(string, bool)>): (ts: seq<Token<string>>)
    ensures |ts| == 2 * |rs|
    decreases |rs|
  {
    if rs == [] then [] else [RedirSym(rs[0].1), Word(rs[0].0)] + RedirToks(rs[1..])
  }

  lemma {:induction false} RedirToksSnoc(rs: seq<(string, bool)>, x: (string, bool))
    ensures RedirToks(rs + [x]) == RedirToks(rs) + [RedirSym(x.1), Word(x.0)]
    decreases |rs|
  {
    if rs == [] {
      assert rs + [x] == [x];
      assert RedirToks([x][1..]) == [];
    } else {
      RedirToksSnoc(rs[1..], x);
      assert (rs + [x])[1..] == rs[1..] + [x];
    }
  }

  /** A command is its core with redirections after it, and prints so. */
  lemma {:induction false} Unwrap(t: Cmd<string>)
    ensures t == Wrap(Core(t), Tail(t)) && Toks(t, 0) == Toks(Core(t), 0) + RedirToks(Tail(t))
    decreases t
  {
    if t.Redir? {
      assert Toks(t, 0) == Toks(t.cmd, 0) + [RedirSym(t.output), Word(t.file)];
      hide Toks, RedirSym;
      Unwrap(t.cmd);
      RedirToksSnoc(Tail(t.cmd), (t.file, t.output));
      hide RedirToks;
      assert Tail(t)[..|Tail(t)| - 1] == Tail(t.cmd);
    }
  }

  // -------- Tokens that spell a text --------

  /** The tokens from k on spell us. */
  predicate Spelled(s: string, ts: seq<Token<Span>>, k: nat, us: seq<Token<string>>) {
    k + |us| <= |ts| && forall j {:trigger us[j]} :: 0 <= j < |us| ==> TokenText(s, ts[k + j]) == us[j]
  }

  lemma SpelledSplit(s: string, ts: seq<Token<Span>>, k: nat, a: seq<Token<string>>, b: seq<Token<string>>)
    requires Spelled(s, ts, k, a + b)
    ensures Spelled(s, ts, k, a) && Spelled(s, ts, k + |a|, b)
  {
    forall j | 0 <= j < |a| ensures TokenText(s, ts[k + j]) == a[j] { assert (a + b)[j] == a[j]; }
    forall j | 0 <= j < |b| ensures TokenText(s, ts[k + |a| + j]) == b[j] { assert (a + b)[|a| + j] == b[j]; }
  }

  lemma SpelledSym(s: string, ts: seq<Token<Span>>, k: nat, c: char)
    requires Spelled(s, ts, k, [Sym(c)])
    ensures k < |ts| && ts[k] == Sym(c)
  {
    assert TokenText(s, ts[k + 0]) == [Sym(c)][0];
  }

  lemma SpelledWord(s: string, ts: seq<Token<Span>>, k: nat, w: string)
    requires Spelled(s, ts, k, [Word(w)])
    ensures k < |ts| && ts[k].Word? && Text(s, ts[k].w) == w
  {
    assert TokenText(s, ts[k + 0]) == [Word(w)][0];
  }

  // -------- Simple commands --------

  lemma {:induction false} RedirsRound(s: string, ts: seq<Token<Span>>, k: nat, acc: seq<(Span, bool)>,
                                       rs: seq<(string, bool)>)
    requires Spelled(s, ts, k, RedirToks(rs)) && !IsRedir(ts, k + 2 * |rs|)
    ensures var r := PRedirs(ts, k, acc);
            r.Files? && r.at == k + 2 * |rs| && FileTexts(s, r.rs) == FileTexts(s, acc) + rs
    decreases |rs|
  {
    if rs != [] {
      var x := rs[0];
      SpelledSplit(s, ts, k, [RedirSym(x.1), Word(x.0)], RedirToks(rs[1..]));
      assert [RedirSym(x.1), Word(x.0)] == [RedirSym(x.1)] + [Word(x.0)];
      SpelledSplit(s, ts, k, [RedirSym(x.1)], [Word(x.0)]);
      SpelledSym(s, ts, k, if x.1 then '>' else '<');
      SpelledWord(s, ts, k + 1, x.0);
      var acc' := acc + [(ts[k + 1].w, x.1)];
      RedirsRound(s, ts, k + 2, acc', rs[1..]);
      assert FileTexts(s, acc') == FileTexts(s, acc) + [x];
      assert FileTexts(s, acc) + [x] + rs[1..] == FileTexts(s, acc) + rs;
    }
  }

  /** The first of some words. */
  lemma FirstWord(s: string, ts: seq<Token<Span>>, k: nat, ws: seq<string>, us: seq<Token<string>>)
    requires ws != [] && Spelled(s, ts, k, Words(ws) + us)
    ensures k < |ts| && ts[k].Word? && Text(s, ts[k].w) == ws[0] && Spelled(s, ts, k + 1, Words(ws[1..]) + us)
  {
    assert Words(ws) + us == [Word(ws[0])] + (Words(ws[1..]) + us);
    SpelledSplit(s, ts, k, [Word(ws[0])], Words(ws[1..]) + us);
    hide Spelled;
    SpelledWord(s, ts, k, ws[0]);
  }

  /** The last word, and the redirections after it. */
  lemma {:induction false} LastArg(s: string, ts: seq<Token<Span>>, k: nat, args: seq<Span>, rs: seq<(string, bool)>)
    requires k < |ts| && ts[k].Word? && Spelled(s, ts, k + 1, RedirToks(rs)) && EndsExec(ts, k + 1 + 2 * |rs|)
    requires |args| + 1 < MAXARGS
    ensures var r := PArgs(ts, k, args, []);
      r.Ok? && r.at == k + 1 + 2 * |rs| && CmdText(s, r.cmd) == Wrap(Exec(Texts(s, args + [ts[k].w])), rs)
  {
    hide Spelled, Wrap;
    RedirsRound(s, ts, k + 1, [], rs);
    var r := PRedirs(ts, k + 1, []);
    hide RedirToks, PRedirs;
    assert FileTexts(s, []) + rs == rs;
    WrapText(s, Exec(args + [ts[k].w]), r.rs);
    hide FileTexts;
    assert PArgs(ts, k, args, []) == PArgs(ts, r.at, args + [ts[k].w], r.rs)
           == Ok(Wrap(Exec(args + [ts[k].w]), r.rs), r.at);
  }

  lemma {:induction false} ArgsRound(s: string, ts: seq<Token<Span>>, k: nat, args: seq<Span>, ws: seq<string>,
                                     rs: seq<(string, bool)>)
    requires ws != [] && Spelled(s, ts, k, Words(ws) + RedirToks(rs)) && EndsExec(ts, k + |ws| + 2 * |rs|)
    requires |args| + |ws| < MAXARGS
    ensures var r := PArgs(ts, k, args, []);
      r.Ok? && r.at == k + |ws| + 2 * |rs| && CmdText(s, r.cmd) == Wrap(Exec(Texts(s, args) + ws), rs)
    decreases |ws|
  {
    hide Spelled, Wrap, CmdText, RedirToks;
    FirstWord(s, ts, k, ws, RedirToks(rs));
    var args' := args + [ts[k].w];
    assert Texts(s, args') == Texts(s, args) + [ws[0]];
    if |ws| == 1 {
      assert Words(ws[1..]) + RedirToks(rs) == RedirToks(rs);
      assert Texts(s, args) + ws == Texts(s, args');
      hide PArgs, Words;
      LastArg(s, ts, k, args, rs);
    } else {
      FirstWord(s, ts, k + 1, ws[1..], RedirToks(rs));
      assert Texts(s, args) + ws == Texts(s, args') + ws[1..];
      hide Words;
      assert PRedirs(ts, k + 1, []) == Files([], k + 1);
      ArgsRound(s, ts, k + 1, args', ws[1..], rs);
    }
  }

  // -------- All commands --------

  /** What may come after a command of level l: nothing, or a token that the parser leaves alone there. */
  predicate Follow(ts: seq<Token<Span>>, k: nat, l: nat) {
    EndsExec(ts, k) && (l >= 1 ==> !IsSym(ts, k, '|')) && (l >= 2 ==> !IsSym(ts, k, '&'))
      && (l >= 3 ==> !IsSym(ts, k, ';'))
  }

  /** r is the command t, and the next token is at. */
  predicate Yields(s: string, r: Parsed<Span>, t: Cmd<string>, at: nat) {
    r.Ok? && r.at == at && CmdText(s, r.cmd) == t
  }

  function Rank(t: Cmd<string>, l: nat): nat {
    if Level(t) > l then 4 + l else l
  }

  /** A simple command is parsed back. */
  lemma {:induction false} SimpleRound(s: string, ts: seq<Token<Span>>, k: nat, ws: seq<string>,
                                       rs: seq<(string, bool)>)
    requires |ws| < MAXARGS && Spelled(s, ts, k, Words(ws) + RedirToks(rs)) && EndsExec(ts, k + |ws| + 2 * |rs|)
    ensures Yields(s, PExec(ts, k), Wrap(Exec(ws), rs), k + |ws| + 2 * |rs|)
  {
    hide Spelled, Wrap, CmdText, PArgs;
    if ws == [] {
      assert Words(ws) + RedirToks(rs) == RedirToks(rs);
      NoParen(s, ts, k, rs);
      RedirsRound(s, ts, k, [], rs);
      var r := PRedirs(ts, k, []);
      assert FileTexts(s, []) + rs == rs;
      WrapText(s, Exec([]), r.rs);
      NoArgs(s, ts, r.at, r.rs);
    } else {
      FirstWord(s, ts, k, ws, RedirToks(rs));
      hide RedirToks, Words;
      ArgsRound(s, ts, k, [], ws, rs);
      assert Texts(s, []) + ws == ws;
    }
  }

  lemma {:induction false} NoArgs(s: string, ts: seq<Token<Span>>, k: nat, rs: seq<(Span, bool)>)
    requires k <= |ts| && EndsExec(ts, k)
    ensures PArgs(ts, k, [], rs) == Ok(Wrap(Exec([]), rs), k) && CmdText(s, Exec([])) == Exec([])
  {
  }

  lemma {:induction false} NoParen(s: string, ts: seq<Token<Span>>, k: nat, rs: seq<(string, bool)>)
    requires Spelled(s, ts, k, RedirToks(rs)) && EndsExec(ts, k + 2 * |rs|)
    ensures !IsSym(ts, k, '(')
  {
    if rs != [] {
      assert RedirToks(rs) == [RedirSym(rs[0].1)] + ([Word(rs[0].0)] + RedirToks(rs[1..]));
      SpelledSplit(s, ts, k, [RedirSym(rs[0].1)], [Word(rs[0].0)] + RedirToks(rs[1..]));
      hide Spelled;
      SpelledSym(s, ts, k, if rs[0].1 then '>' else '<');
    }
  }

  /** A block is parsed back, given its inside. */
  lemma {:induction false} BlockRound(s: string, ts: seq<Token<Span>>, k: nat, t: Cmd<string>, m: nat,
                                      rs: seq<(string, bool)>)
    requires IsSym(ts, k, '(') && Yields(s, PLine(ts, k + 1), t, m) && IsSym(ts, m, ')')
    requires Spelled(s, ts, m + 1, RedirToks(rs)) && !IsRedir(ts, m + 1 + 2 * |rs|)
    ensures Yields(s, PExec(ts, k), Wrap(t, rs), m + 1 + 2 * |rs|)
  {
    hide Spelled, Wrap, CmdText, PLine;
    var c := PLine(ts, k + 1).cmd;
    RedirsRound(s, ts, m + 1, [], rs);
    var r := PRedirs(ts, m + 1, []);
    assert FileTexts(s, []) + rs == rs;
    WrapText(s, c, r.rs);
  }

  lemma {:induction false} ExecRound(s: string, ts: seq<Token<Span>>, k: nat, t: Cmd<string>)
    requires WellFormed(t) && Spelled(s, ts, k, Toks(t, 0)) && Follow(ts, k + |Toks(t, 0)|, 0)
    ensures Yields(s, PExec(ts, k), t, k + |Toks(t, 0)|)
    decreases t, Rank(t, 0)
  {
    hide Spelled, Yields, PExec, Wrap, RedirToks;
    Unwrap(t);
    CoreForm(t);
    var core, rs := Core(t), Tail(t);
    if core.Exec? {
      assert Toks(core, 0) == Words(core.argv);
      SimpleRound(s, ts, k, core.argv, rs);
    } else {
      var us := Toks(core, 3);
      assert Toks(core, 0) == [Sym('(')] + us + [Sym(')')];
      assert Toks(t, 0) == [Sym('(')] + (us + ([Sym(')')] + RedirToks(rs)));
      hide Toks;
      SpelledSplit(s, ts, k, [Sym('(')], us + ([Sym(')')] + RedirToks(rs)));
      SpelledSplit(s, ts, k + 1, us, [Sym(')')] + RedirToks(rs));
      SpelledSplit(s, ts, k + 1 + |us|, [Sym(')')], RedirToks(rs));
      SpelledSym(s, ts, k, '(');
      SpelledSym(s, ts, k + 1 + |us|, ')');
      LineRound(s, ts, k + 1, core);
      BlockRound(s, ts, k, core, k + 1 + |us|, rs);
    }
  }

  lemma {:induction false} CoreForm(t: Cmd<string>)
    requires WellFormed(t)
    ensures WellFormed(Core(t)) && (t.Redir? || Core(t) == t)
    ensures Core(t).Exec? ==> |Core(t).argv| < MAXARGS
    ensures !Core(t).Exec? ==> Level(Core(t)) > 0
    ensures (t decreases to Core(t)) || Core(t) == t
    decreases t
  {
    if t.Redir? { CoreForm(t.cmd); }
  }

  lemma {:induction false} PipeRound(s: string, ts: seq<Token<Span>>, k: nat, t: Cmd<string>)
    requires WellFormed(t) && Spelled(s, ts, k, Toks(t, 1)) && Follow(ts, k + |Toks(t, 1)|, 1)
    ensures Yields(s, PPipe(ts, k), t, k + |Toks(t, 1)|)
    decreases t, Rank(t, 1)
  {
    hide Spelled, PExec;
    if t.Pipe? {
      var a, b := Toks(t.left, 0), Toks(t.right, 1);
      assert Toks(t, 1) == a + ([Sym('|')] + b);
      hide Toks;
      SpelledSplit(s, ts, k, a, [Sym('|')] + b);
      SpelledSplit(s, ts, k + |a|, [Sym('|')], b);
      SpelledSym(s, ts, k + |a|, '|');
      ExecRound(s, ts, k, t.left);
      PipeRound(s, ts, k + |a| + 1, t.right);
    } else {
      assert Toks(t, 1) == Toks(t, 0);
      hide Toks;
      ExecRound(s, ts, k, t);
    }
  }

  /** Up to the background marks of t, the parser has built t and goes on looking for more of them. */
  lemma {:induction false} BackRound(s: string, ts: seq<Token<Span>>, k: nat, t: Cmd<string>) returns (c: Cmd<Span>)
    requires WellFormed(t) && Spelled(s, ts, k, Toks(t, 2)) && Follow(ts, k + |Toks(t, 2)|, 1)
    ensures k + |Toks(t, 2)| <= |ts| && PBack(ts, k) == PAmps(ts, k + |Toks(t, 2)|, c) && CmdText(s, c) == t
    decreases t, Rank(t, 2)
  {
    hide Spelled, PPipe;
    if t.Back? {
      var a := Toks(t.cmd, 2);
      assert Toks(t, 2) == a + [Sym('&')];
      hide Toks;
      SpelledSplit(s, ts, k, a, [Sym('&')]);
      SpelledSym(s, ts, k + |a|, '&');
      var d := BackRound(s, ts, k, t.cmd);
      c := Back(d);
    } else {
      assert Toks(t, 2) == Toks(t, 1);
      hide Toks;
      PipeRound(s, ts, k, t);
      c := PPipe(ts, k).cmd;
    }
  }

  lemma {:induction false} LineRound(s: string, ts: seq<Token<Span>>, k: nat, t: Cmd<string>)
    requires WellFormed(t) && Spelled(s, ts, k, Toks(t, 3)) && Follow(ts, k + |Toks(t, 3)|, 3)
    ensures Yields(s, PLine(ts, k), t, k + |Toks(t, 3)|)
    decreases t, Rank(t, 3)
  {
    hide Spelled, PBack;
    if t.List? {
      var a, b := Toks(t.left, 2), Toks(t.right, 3);
      assert Toks(t, 3) == a + ([Sym(';')] + b);
      hide Toks;
      SpelledSplit(s, ts, k, a, [Sym(';')] + b);
      SpelledSplit(s, ts, k + |a|, [Sym(';')], b);
      SpelledSym(s, ts, k + |a|, ';');
      var c := BackRound(s, ts, k, t.left);
      LineRound(s, ts, k + |a| + 1, t.right);
    } else {
      assert Toks(t, 3) == Toks(t, 2);
      hide Toks;
      var c := BackRound(s, ts, k, t);
    }
  }

  lemma {:induction false} ToksOk(t: Cmd<string>, l: nat)
    requires WellFormed(t)
    ensures forall k :: 0 <= k < |Toks(t, l)| ==> TokenOk(Toks(t, l)[k])
    decreases t, if Level(t) > l then 1 else 0
  {
    if Level(t) > l {
      ToksOk(t, 3);
    } else {
      match t
      case Exec(ws) =>
      case Redir(c, f, o) => ToksOk(c, 0);
      case Pipe(a, b) => ToksOk(a, 0); ToksOk(b, 1);
      case Back(c) => ToksOk(c, 2);
      case List(a, b) => ToksOk(a, 2); ToksOk(b, 3);
    }
  }

  /** Parsing the printed form of any command the parser can build gives that command back. */
  lemma {:induction false} RoundTrip(t: Cmd<string>)
    requires WellFormed(t)
    ensures IsLine(Print(t)) && var r := PCmd(Lex(Print(t), 0)); r.Ok? && CmdText(Print(t), r.cmd) == t
  {
    hide Toks, Lex, PLine, Spelled, Reads, IsLine, Render, CmdText, TokenOk;
    var us, s := Toks(t, 3), Print(t);
    ToksOk(t, 3);
    RenderIsLine(us);
    assert "" + Render(us) == s;
    LexRender("", us, 0);
    ReadsSpelled(s, us);
    LineRound(s, Lex(s, 0), 0, t);
  }

  lemma {:induction false} ReadsSpelled(s: string, us: seq<Token<string>>)
    requires IsLine(s) && Reads(s, 0, us)
    ensures Spelled(s, Lex(s, 0), 0, us) && |Lex(s, 0)| == |us|
  {
    hide Lex, TokenText;
    forall j | 0 <= j < |us| ensures TokenText(s, Lex(s, 0)[0 + j]) == us[j] { }
  }

  // -------- Whatever is accepted is such a command --------

  /** Every word of the command is a word of the line, and no simple command has too many. */
  predicate Built(s: string, c: Cmd<Span>) {
    match c
    case Exec(ws) => |ws| < MAXARGS && forall i :: 0 <= i < |ws| ==> IsWord(s, ws[i])
    case Redir(d, f, _) => IsWord(s, f) && Built(s, d)
    case Back(d) => Built(s, d)
    case Pipe(a, b) => Built(s, a) && Built(s, b)
    case List(a, b) => Built(s, a) && Built(s, b)
  }

  predicate TokensOf(s: string, ts: seq<Token<Span>>) {
    forall k :: 0 <= k < |ts| && ts[k].Word? ==> IsWord(s, ts[k].w)
  }

  predicate FilesOf(s: string, rs: seq<(Span, bool)>) {
    forall i :: 0 <= i < |rs| ==> IsWord(s, rs[i].0)
  }

  lemma {:induction false} WrapBuilt(s: string, c: Cmd<Span>, rs: seq<(Span, bool)>)
    requires Built(s, c) && FilesOf(s, rs)
    ensures Built(s, Wrap(c, rs))
    decreases |rs|
  {
    if rs != [] { WrapBuilt(s, c, rs[..|rs| - 1]); }
  }

  lemma {:induction false} RedirsBuilt(s: string, ts: seq<Token<Span>>, k: nat, rs: seq<(Span, bool)>)
    requires TokensOf(s, ts) && k <= |ts| && FilesOf(s, rs)
    ensures PRedirs(ts, k, rs).Files? ==> FilesOf(s, PRedirs(ts, k, rs).rs)
    decreases |ts| - k
  {
    if IsRedir(ts, k) && k + 1 < |ts| && ts[k + 1].Word? {
      RedirsBuilt(s, ts, k + 2, rs + [(ts[k + 1].w, ts[k] != Sym('<'))]);
    }
  }

  lemma {:induction false} ArgsBuilt(s: string, ts: seq<Token<Span>>, k: nat, args: seq<Span>, rs: seq<(Span, bool)>)
    requires TokensOf(s, ts) && k <= |ts| && Built(s, Exec(args)) && FilesOf(s, rs)
    ensures PArgs(ts, k, args, rs).Ok? ==> Built(s, PArgs(ts, k, args, rs).cmd)
    decreases |ts| - k
  {
    if EndsExec(ts, k) {
      WrapBuilt(s, Exec(args), rs);
    } else if ts[k].Word? && |args| + 1 < MAXARGS {
      RedirsBuilt(s, ts, k + 1, rs);
      var r := PRedirs(ts, k + 1, rs);
      if r.Files? { ArgsBuilt(s, ts, r.at, args + [ts[k].w], r.rs); }
    }
  }

  lemma {:induction false} ExecBuilt(s: string, ts: seq<Token<Span>>, k: nat)
    requires TokensOf(s, ts) && k <= |ts|
    ensures PExec(ts, k).Ok? ==> Built(s, PExec(ts, k).cmd)
    decreases |ts| - k, 0
  {
    hide TokensOf, IsWord;
    if IsSym(ts, k, '(') {
      LineBuilt(s, ts, k + 1);
      var c := PLine(ts, k + 1);
      if c.Ok? && IsSym(ts, c.at, ')') {
        RedirsBuilt(s, ts, c.at + 1, []);
        var r := PRedirs(ts, c.at + 1, []);
        if r.Files? { WrapBuilt(s, c.cmd, r.rs); }
      }
    } else {
      RedirsBuilt(s, ts, k, []);
      var r := PRedirs(ts, k, []);
      if r.Files? { ArgsBuilt(s, ts, r.at, [], r.rs); }
    }
  }

  lemma {:induction false} PipeBuilt(s: string, ts: seq<Token<Span>>, k: nat)
    requires TokensOf(s, ts) && k <= |ts|
    ensures PPipe(ts, k).Ok? ==> Built(s, PPipe(ts, k).cmd)
    decreases |ts| - k, 1
  {
    hide TokensOf, IsWord;
    ExecBuilt(s, ts, k);
    var c := PExec(ts, k);
    if c.Ok? && IsSym(ts, c.at, '|') { PipeBuilt(s, ts, c.at + 1); }
  }

  lemma {:induction false} AmpsBuilt(s: string, ts: seq<Token<Span>>, k: nat, c: Cmd<Span>)
    requires k <= |ts| && Built(s, c)
    ensures Built(s, PAmps(ts, k, c).cmd)
    decreases |ts| - k
  {
    if IsSym(ts, k, '&') { AmpsBuilt(s, ts, k + 1, Back(c)); }
  }

  lemma {:induction false} LineBuilt(s: string, ts: seq<Token<Span>>, k: nat)
    requires TokensOf(s, ts) && k <= |ts|
    ensures PLine(ts, k).Ok? ==> Built(s, PLine(ts, k).cmd)
    decreases |ts| - k, 3
  {
    hide TokensOf, IsWord;
    PipeBuilt(s, ts, k);
    var p := PPipe(ts, k);
    if p.Ok? {
      AmpsBuilt(s, ts, p.at, p.cmd);
      var c := PBack(ts, k);
      if IsSym(ts, c.at, ';') { LineBuilt(s, ts, c.at + 1); }
    }
  }

  lemma {:induction false} LexTokens(s: string)
    requires IsLine(s)
    ensures TokensOf(s, Lex(s, 0))
  {
    forall k | 0 <= k < |Lex(s, 0)| && Lex(s, 0)[k].Word? ensures IsWord(s, Lex(s, 0)[k].w) { LexWords(s, 0, k); }
  }

  lemma {:induction false} BuiltText(s: string, c: Cmd<Span>)
    requires Built(s, c)
    ensures WellFormed(CmdText(s, c))
    decreases c
  {
    match c
    case Exec(ws) => forall i | 0 <= i < |ws| ensures WordOk(Texts(s, ws)[i]) { WordText(s, ws[i]); }
    case Redir(d, f, _) => WordText(s, f); BuiltText(s, d);
    case Back(d) => BuiltText(s, d);
    case Pipe(a, b) => BuiltText(s, a); BuiltText(s, b);
    case List(a, b) => BuiltText(s, a); BuiltText(s, b);
  }

  lemma WordText(s: string, sp: Span)
    requires IsWord(s, sp)
    ensures WordOk(Text(s, sp))
  {
  }

  /** Every accepted line means a command whose printed form means the same. */
  lemma {:induction false} Canonical(s: string)
    requires IsLine(s) && PCmd(Lex(s, 0)).Ok?
    ensures var t := CmdText(s, PCmd(Lex(s, 0)).cmd);
      && WellFormed(t) && IsLine(Print(t))
      && PCmd(Lex(Print(t), 0)).Ok? && CmdText(Print(t), PCmd(Lex(Print(t), 0)).cmd) == t
  {
    hide Built, TokensOf, Lex, PLine, WellFormed, Print;
    LexTokens(s);
    LineBuilt(s, Lex(s, 0), 0);
    BuiltText(s, PCmd(Lex(s, 0)).cmd);
    RoundTrip(CmdText(s, PCmd(Lex(s, 0)).cmd));
  }
}
