/** The parser of sh.c as it runs over the characters of the line, and nulterminate. */
module Shell {
  import opened ShellLex
  import opened ShellParse
  import opened ShellRound

  // -------- The scanner --------

  /** What gettoken returns for a token; NUL at the end of the line. */
  function Code(t: Token<Span>): char {
    match t
    case Sym(c) => c
    case Append => '+'
    case Word(_) => 'a'
  }

  lemma {:induction false} SkipAgain(s: string, i: nat)
    requires i <= |s| && IsLine(s)
    ensures Skip(s, Skip(s, i)) == Skip(s, i) && Lex(s, Skip(s, i)) == Lex(s, i)
  {
  }

  /** sh.c:469-470 */
  method SkipSpace(s: string, i: nat) returns (j: nat)
    requires i <= |s|
    ensures j == Skip(s, i)
  {
    j := i;
    while j < |s| && IsSpace(s[j])
      invariant i <= j <= |s| && Skip(s, j) == Skip(s, i)
    {
      j := j + 1;
    }
  }

  /** sh.c:494-495 */
  method ScanWord(s: string, i: nat) returns (j: nat)
    requires i <= |s| && IsLine(s)
    ensures j == WordEnd(s, i)
  {
    j := i;
    while j < |s| && !IsSpace(s[j]) && !IsSymbol(s[j])
      invariant i <= j <= |s| && WordEnd(s, j) == WordEnd(s, i)
    {
      j := j + 1;
    }
  }

  /** gettoken (sh.c:462-505) */
  method GetToken(s: string, ps: nat) returns (ret: char, q: nat, eq: nat, next: nat)
    requires ps <= |s| && IsLine(s)
    ensures ps <= next <= |s|
    ensures Lex(s, ps) == [] ==> ret == NUL && Lex(s, next) == []
    ensures Lex(s, ps) != [] ==>
              next > ps && ret == Code(Lex(s, ps)[0]) && ret != NUL && Lex(s, next) == Lex(s, ps)[1..]
    ensures ret == 'a' <==> Lex(s, ps) != [] && Lex(s, ps)[0].Word?
    ensures ret == 'a' ==> Lex(s, ps)[0] == Word(Span(q, eq))
  {
    var i := SkipSpace(s, ps);
    q := i;
    ret := if i < |s| then s[i] else NUL;
    if ret == '|' || ret == '(' || ret == ')' || ret == ';' || ret == '&' || ret == '<' {
      i := i + 1;
    } else if ret == '>' {
      i := i + 1;
      if i < |s| && s[i] == '>' {
        ret := '+';
        i := i + 1;
      }
    } else if ret != NUL {
      ret := 'a';
      i := ScanWord(s, i);
    }
    eq := i;
    next := SkipSpace(s, i);
    assert q < |s| ==> eq == TokenEnd(s, q) && ret == Code(TokenAt(s, q));
    SkipAgain(s, eq);
  }

  /** Whether a token begins with one of the symbols toks. */
  predicate Begins(ts: seq<Token<Span>>, toks: string) {
    ts != [] && match ts[0] case Sym(c) => c in toks case Append => '>' in toks case Word(_) => false
  }

  /** peek (sh.c:507-517) */
  method Peek(s: string, ps: nat, toks: string) returns (found: bool, next: nat)
    requires ps <= |s| && IsLine(s) && forall i :: 0 <= i < |toks| ==> IsSymbol(toks[i])
    ensures ps <= next <= |s| && Lex(s, next) == Lex(s, ps)
    ensures found <==> Begins(Lex(s, ps), toks)
    ensures Lex(s, ps) == [] ==> next == |s|
  {
    next := SkipSpace(s, ps);
    SkipAgain(s, ps);
    found := next < |s| && s[next] in toks;
  }

  // -------- The parser --------

  /** The characters from ps on are the tokens from k on. */
  predicate Here(s: string, ps: nat, ts: seq<Token<Span>>, k: nat)
    requires IsLine(s)
  {
    ps <= |s| && k <= |ts| && Lex(s, ps) == ts[k..]
  }

  /** The outcome at characters, where the one at tokens is `spec`. */
  predicate Agrees(s: string, ps: nat, ts: seq<Token<Span>>, r: Parsed<Span>, spec: Parsed<Span>)
    requires IsLine(s)
  {
    match spec
    case Panic(m) => r == Panic(m)
    case Ok(c, at) => r.Ok? && r.cmd == c && ps <= r.at && Here(s, r.at, ts, at)
  }

  lemma BeginsWith(ts: seq<Token<Span>>, k: nat)
    requires k <= |ts|
    ensures forall c :: Begins(ts[k..], [c]) <==> IsSym(ts, k, c) || (c == '>' && k < |ts| && ts[k].Append?)
    ensures Begins(ts[k..], "<>") <==> IsRedir(ts, k)
    ensures Begins(ts[k..], "|)&;") <==> k < |ts| && EndsExec(ts, k)
    ensures ts[k..] == [] <==> k == |ts|
    ensures k < |ts| ==> ts[k..][0] == ts[k] && ts[k..][1..] == ts[k + 1..]
  {
  }

  /** parseredirs (sh.c:571-594): the redirections are given and returned as a list. */
  method ParseRedirs(s: string, ps: nat, rs: seq<(Span, bool)>, ghost ts: seq<Token<Span>>, ghost k: nat)
    returns (ok: bool, files: seq<(Span, bool)>, next: nat, ghost at: nat)
    requires IsLine(s) && Here(s, ps, ts, k)
    ensures ok <==> PRedirs(ts, k, rs).Files?
    ensures ok ==> PRedirs(ts, k, rs) == Files(files, at) && ps <= next && Here(s, next, ts, at)
  {
    hide Lex;
    next, files, at := ps, rs, k;
    while true
      invariant ps <= next && Here(s, next, ts, at) && PRedirs(ts, k, rs) == PRedirs(ts, at, files)
      decreases |ts| - at
    {
      BeginsWith(ts, at);
      var found;
      found, next := Peek(s, next, "<>");
      if !found { return true, files, next, at; }
      var tok, q, eq;
      tok, q, eq, next := GetToken(s, next);
      BeginsWith(ts, at + 1);
      var w;
      w, q, eq, next := GetToken(s, next);
      if w != 'a' { return false, files, next, at; }
      files, at := files + [(Span(q, eq), tok != '<')], at + 2;
    }
  }

  /** parseexec (sh.c:612-643) */
  method ParseExec(s: string, ps: nat, ghost ts: seq<Token<Span>>, ghost k: nat) returns (r: Parsed<Span>)
    requires IsLine(s) && Here(s, ps, ts, k)
    ensures Agrees(s, ps, ts, r, PExec(ts, k))
    decreases |s| - ps, 0
  {
    hide Lex, PLine;
    BeginsWith(ts, k);
    var found, next := Peek(s, ps, "(");
    if found {
      r := ParseBlock(s, next, ts, k);
      return;
    }
    hide PRedirs;
    var ok, rs, i;
    ghost var at;
    ok, rs, i, at := ParseRedirs(s, next, [], ts, k);
    if !ok { return Panic(MISSING_FILE); }
    r := ParseArgs(s, i, rs, ts, at);
  }

  /** sh.c:626-642 */
  method ParseArgs(s: string, ps: nat, rs: seq<(Span, bool)>, ghost ts: seq<Token<Span>>,
                   ghost k: nat) returns (r: Parsed<Span>)
    requires IsLine(s) && Here(s, ps, ts, k)
    ensures Agrees(s, ps, ts, r, PArgs(ts, k, [], rs))
  {
    hide Lex, PRedirs;
    var argv: seq<Span>, next, files := [], ps, rs;
    ghost var at := k;
    while true
      invariant ps <= next && Here(s, next, ts, at) && PArgs(ts, k, [], rs) == PArgs(ts, at, argv, files)
      decreases |ts| - at
    {
      BeginsWith(ts, at);
      var found;
      found, next := Peek(s, next, "|)&;");
      if found { return Ok(Wrap(Exec(argv), files), next); }
      var tok, q, eq;
      tok, q, eq, next := GetToken(s, next);
      if tok == NUL { return Ok(Wrap(Exec(argv), files), next); }
      if tok != 'a' { return Panic(SYNTAX); }
      if |argv| + 1 >= MAXARGS { return Panic(TOO_MANY); }
      argv := argv + [Span(q, eq)];
      var ok;
      ghost var at';
      ok, files, next, at' := ParseRedirs(s, next, files, ts, at + 1);
      if !ok { return Panic(MISSING_FILE); }
      at := at';
    }
  }

  /** parseblock (sh.c:596-610) */
  method ParseBlock(s: string, ps: nat, ghost ts: seq<Token<Span>>, ghost k: nat) returns (r: Parsed<Span>)
    requires IsLine(s) && Here(s, ps, ts, k) && IsSym(ts, k, '(')
    ensures Agrees(s, ps, ts, r, PBlock(ts, k))
    decreases |s| - ps - 1, 4
  {
    hide Lex, PLine;
    BeginsWith(ts, k);
    var tok, q, eq, next := GetToken(s, ps);
    r := ParseLine(s, next, ts, k + 1);
    if r.Panic? { return; }
    ghost var at := PLine(ts, k + 1).at;
    BeginsWith(ts, at);
    var found;
    found, next := Peek(s, r.at, ")");
    if !found { return Panic(MISSING_PAREN); }
    tok, q, eq, next := GetToken(s, next);
    hide PRedirs;
    var ok, rs;
    ghost var at';
    ok, rs, next, at' := ParseRedirs(s, next, [], ts, at + 1);
    if !ok { return Panic(MISSING_FILE); }
    return Ok(Wrap(r.cmd, rs), next);
  }

  /** parsepipe (sh.c:558-569) */
  method ParsePipe(s: string, ps: nat, ghost ts: seq<Token<Span>>, ghost k: nat) returns (r: Parsed<Span>)
    requires IsLine(s) && Here(s, ps, ts, k)
    ensures Agrees(s, ps, ts, r, PPipe(ts, k))
    decreases |s| - ps, 1
  {
    hide Lex, PExec;
    r := ParseExec(s, ps, ts, k);
    if r.Panic? { return; }
    ghost var at := PExec(ts, k).at;
    BeginsWith(ts, at);
    var found, next := Peek(s, r.at, "|");
    if !found { return Ok(r.cmd, next); }
    var tok, q, eq;
    tok, q, eq, next := GetToken(s, next);
    var right := ParsePipe(s, next, ts, at + 1);
    if right.Panic? { return right; }
    return Ok(Pipe(r.cmd, right.cmd), right.at);
  }

  /** parseline (sh.c:541-556) */
  method ParseLine(s: string, ps: nat, ghost ts: seq<Token<Span>>, ghost k: nat) returns (r: Parsed<Span>)
    requires IsLine(s) && Here(s, ps, ts, k)
    ensures Agrees(s, ps, ts, r, PLine(ts, k))
    decreases |s| - ps, 3
  {
    hide Lex, PPipe;
    r := ParsePipe(s, ps, ts, k);
    if r.Panic? { return; }
    ghost var at := PPipe(ts, k).at;
    var cmd, next := r.cmd, r.at;
    while true
      invariant ps <= next && Here(s, next, ts, at) && PBack(ts, k) == PAmps(ts, at, cmd)
      decreases |ts| - at
    {
      BeginsWith(ts, at);
      var found;
      found, next := Peek(s, next, "&");
      if !found { break; }
      var tok, q, eq;
      tok, q, eq, next := GetToken(s, next);
      cmd, at := Back(cmd), at + 1;
    }
    BeginsWith(ts, at);
    var found;
    found, next := Peek(s, next, ";");
    if !found { return Ok(cmd, next); }
    var tok, q, eq;
    tok, q, eq, next := GetToken(s, next);
    var rest := ParseLine(s, next, ts, at + 1);
    if rest.Panic? { return rest; }
    return Ok(List(cmd, rest.cmd), rest.at);
  }

  /** parsecmd up to nulterminate (sh.c:530-536): every line is parsed or refused, as the grammar says. */
  method ParseCmd(s: string) returns (r: Parsed<Span>)
    requires IsLine(s)
    ensures match PCmd(Lex(s, 0)) case Ok(c, _) => r == Ok(c, |s|) case Panic(m) => r == Panic(m)
    ensures r.Ok? ==> Built(s, r.cmd)
  {
    hide Lex, PLine, Built;
    ghost var ts := Lex(s, 0);
    r := ParseLine(s, 0, ts, 0);
    if r.Panic? { return; }
    LexTokens(s);
    LineBuilt(s, ts, 0);
    var found, next := Peek(s, r.at, "");
    Leftovers(s, next);
    if next != |s| { return Panic(SYNTAX); }
    return Ok(r.cmd, |s|);
  }

  lemma {:induction false} Leftovers(s: string, i: nat)
    requires i <= |s| && IsLine(s)
    ensures i == |s| ==> Lex(s, i) == []
  {
  }

  // -------- nulterminate --------

  /** The words of a command, wherever they stand in it. */
  function Spans(c: Cmd<Span>): set<Span> {
    match c
    case Exec(ws) => set i | 0 <= i < |ws| :: ws[i]
    case Redir(d, f, _) => Spans(d) + {f}
    case Back(d) => Spans(d)
    case Pipe(a, b) => Spans(a) + Spans(b)
    case List(a, b) => Spans(a) + Spans(b)
  }

  /** Where nulterminate writes a NUL: at the end of each word. */
  predicate EndsAt(ws: set<Span>, i: nat) {
    exists w :: w in ws && w.eq == i
  }

  /** The line with a NUL at the end of each of the words. */
  function Nulled(b: seq<char>, ws: set<Span>): (r: seq<char>)
    ensures |r| == |b|
  {
    seq(|b|, i requires 0 <= i < |b| => if EndsAt(ws, i) then NUL else b[i])
  }

  lemma NulledTwice(b: seq<char>, ws: set<Span>, vs: set<Span>)
    ensures Nulled(Nulled(b, ws), vs) == Nulled(b, ws + vs)
  {
    forall i | 0 <= i < |b| ensures Nulled(Nulled(b, ws), vs)[i] == Nulled(b, ws + vs)[i] {
      EndsUnion(ws, vs, i);
    }
  }

  lemma EndsUnion(ws: set<Span>, vs: set<Span>, i: nat)
    ensures EndsAt(ws + vs, i) <==> EndsAt(ws, i) || EndsAt(vs, i)
  {
    if EndsAt(ws, i) {
      var w :| w in ws && w.eq == i;
      assert w in ws + vs;
    }
    if EndsAt(vs, i) {
      var w :| w in vs && w.eq == i;
      assert w in ws + vs;
    }
  }

  predicate Within(ws: set<Span>, n: nat) {
    forall w :: w in ws ==> w.eq < n
  }

  /** sh.c:662-663 */
  method NulArgs(buf: array<char>, argv: seq<Span>)
    requires Within(Spans(Exec(argv)), buf.Length)
    modifies buf
    ensures buf[..] == Nulled(old(buf[..]), Spans(Exec(argv)))
  {
    ghost var b := buf[..];
    var i := 0;
    assert Nulled(b, Spans(Exec(argv[..0]))) == b;
    while i < |argv|
      invariant 0 <= i <= |argv| && buf[..] == Nulled(b, Spans(Exec(argv[..i])))
    {
      assert argv[i] in Spans(Exec(argv));
      NulledOne(b, argv[..i], argv[i]);
      assert argv[..i] + [argv[i]] == argv[..i + 1];
      buf[argv[i].eq] := NUL;
      i := i + 1;
    }
    assert argv[..|argv|] == argv;
  }

  lemma NulledOne(b: seq<char>, ws: seq<Span>, w: Span)
    requires w.eq < |b|
    ensures Nulled(b, Spans(Exec(ws + [w]))) == Nulled(b, Spans(Exec(ws)))[w.eq := NUL]
  {
    assert Spans(Exec(ws + [w])) == Spans(Exec(ws)) + {w} by {
      forall x | x in Spans(Exec(ws)) + {w} ensures x in Spans(Exec(ws + [w])) {
        if x == w { assert (ws + [w])[|ws|] == w; } else {
          var i :| 0 <= i < |ws| && ws[i] == x;
          assert (ws + [w])[i] == x;
        }
      }
    }
    hide Spans;
    forall i | 0 <= i < |b| ensures Nulled(b, Spans(Exec(ws + [w])))[i] == Nulled(b, Spans(Exec(ws)))[w.eq := NUL][i] {
      EndsUnion(Spans(Exec(ws)), {w}, i);
      assert EndsAt({w}, i) <==> i == w.eq by { if i == w.eq { assert w in {w}; } }
    }
  }

  /** nulterminate (sh.c:645-690) */
  method NulTerminate(buf: array<char>, c: Cmd<Span>)
    requires Within(Spans(c), buf.Length)
    modifies buf
    ensures buf[..] == Nulled(old(buf[..]), Spans(c))
    decreases c
  {
    ghost var b := buf[..];
    match c
    case Exec(ws) => NulArgs(buf, ws);
    case Redir(d, f, _) =>
      NulTerminate(buf, d);
      NulledTwice(b, Spans(d), {f});
      ghost var now := buf[..];
      buf[f.eq] := NUL;
      assert buf[..] == Nulled(now, {f}) by { NulledAt(now, f); }
    case Back(d) => NulTerminate(buf, d);
    case Pipe(l, r) =>
      NulTerminate(buf, l);
      NulTerminate(buf, r);
      NulledTwice(b, Spans(l), Spans(r));
    case List(l, r) =>
      NulTerminate(buf, l);
      NulTerminate(buf, r);
      NulledTwice(b, Spans(l), Spans(r));
  }

  lemma NulledAt(b: seq<char>, f: Span)
    requires f.eq < |b|
    ensures Nulled(b, {f}) == b[f.eq := NUL]
  {
    forall i | 0 <= i < |b| ensures EndsAt({f}, i) <==> i == f.eq { if i == f.eq { assert f in {f}; } }
  }

  /** The C string that starts at i. */
  function CString(b: seq<char>, i: nat): string
    decreases |b| - i
  {
    if i >= |b| || b[i] == NUL then "" else [b[i]] + CString(b, i + 1)
  }

  lemma {:induction false} CStringIs(b: seq<char>, i: nat, j: nat)
    requires i <= j < |b| && b[j] == NUL && forall k :: i <= k < j ==> b[k] != NUL
    ensures CString(b, i) == b[i..j]
    decreases j - i
  {
    if i < j { CStringIs(b, i + 1, j); }
  }

  lemma {:induction false} BuiltSpans(s: string, c: Cmd<Span>, w: Span)
    requires Built(s, c) && w in Spans(c)
    ensures IsWord(s, w)
    decreases c
  {
    match c
    case Exec(ws) =>
    case Redir(d, f, _) => if w in Spans(d) { BuiltSpans(s, d, w); }
    case Back(d) => BuiltSpans(s, d, w);
    case Pipe(a, b) => if w in Spans(a) { BuiltSpans(s, a, w); } else { BuiltSpans(s, b, w); }
    case List(a, b) => if w in Spans(a) { BuiltSpans(s, a, w); } else { BuiltSpans(s, b, w); }
  }

  /** No NUL lands in a word: a word ends where it cannot go on, and there no other word can be. */
  lemma {:induction false} WordsSurvive(s: string, c: Cmd<Span>, w: Span)
    requires IsLine(s) && Built(s, c) && IsWord(s, w)
    ensures Nulled(s + [NUL], Spans(c))[w.q..w.eq] == s[w.q..w.eq]
  {
    var r := Nulled(s + [NUL], Spans(c));
    forall i | w.q <= i < w.eq ensures r[i] == s[i] {
      if EndsAt(Spans(c), i) {
        var v :| v in Spans(c) && v.eq == i;
        BuiltSpans(s, c, v);
      }
    }
  }

  /** After nulterminate every argument and file name is a C string, and it is the word that was read. */
  lemma {:induction false} WordsTerminated(s: string, c: Cmd<Span>, w: Span)
    requires IsLine(s) && Built(s, c) && w in Spans(c)
    ensures CString(Nulled(s + [NUL], Spans(c)), w.q) == Text(s, w)
  {
    var r := Nulled(s + [NUL], Spans(c));
    BuiltSpans(s, c, w);
    WordsSurvive(s, c, w);
    assert EndsAt(Spans(c), w.eq) && r[w.eq] == NUL;
    forall k | w.q <= k < w.eq ensures r[k] != NUL { assert r[w.q..w.eq][k - w.q] == s[w.q..w.eq][k - w.q]; }
    CStringIs(r, w.q, w.eq);
  }

  /** parsecmd (sh.c:524-539) on a buffer that holds a C string. */
  method RunParser(buf: array<char>, ghost s: string) returns (r: Parsed<Span>)
    requires IsLine(s) && buf[..] == s + [NUL]
    modifies buf
    ensures match PCmd(Lex(s, 0)) case Ok(c, _) => r == Ok(c, |s|) case Panic(m) => r == Panic(m)
    ensures r.Panic? ==> buf[..] == old(buf[..])
    ensures r.Ok? ==> forall w :: w in Spans(r.cmd) ==> CString(buf[..], w.q) == Text(s, w)
    ensures r.Ok? ==> forall w :: IsWord(s, w) ==> buf[..][w.q..w.eq] == s[w.q..w.eq]
  {
    var line := buf[..buf.Length - 1];
    assert line == s;
    r := ParseCmd(line);
    if r.Ok? {
      forall w | w in Spans(r.cmd)
        ensures w.eq < buf.Length && CString(Nulled(s + [NUL], Spans(r.cmd)), w.q) == Text(s, w) {
        BuiltSpans(s, r.cmd, w);
        WordsTerminated(s, r.cmd, w);
      }
      forall w | IsWord(s, w) ensures Nulled(s + [NUL], Spans(r.cmd))[w.q..w.eq] == s[w.q..w.eq] {
        WordsSurvive(s, r.cmd, w);
      }
      NulTerminate(buf, r.cmd);
    }
  }
}
