/** The tokens of a command line, as gettoken and peek of sh.c see them. */
module ShellLex {

  /** A word of the line: its first character and the one after its last (q and eq). */
  datatype Span = Span(q: nat, eq: nat)

  /** A token; W is what stands for a word, its Span or its text. Append is the operator >>. */
  datatype Token<W> = Sym(c: char) | Append | Word(w: W)

  const NUL := '\0'

  /** sh.c:459 */
  predicate IsSpace(c: char) {
    c == ' ' || c == '\t' || c == '\r' || c == '\n' || c == '\U{000B}'
  }

  /** sh.c:460 */
  predicate IsSymbol(c: char) {
    c == '<' || c == '|' || c == '>' || c == '&' || c == ';' || c == '(' || c == ')'
  }

  predicate IsOrdinary(c: char) {
    c != NUL && !IsSpace(c) && !IsSymbol(c)
  }

  /** A C string's characters. */
  predicate IsLine(s: string) {
    forall i :: 0 <= i < |s| ==> s[i] != NUL
  }

  /** Past the white space at i. */
  function Skip(s: string, i: nat): (j: nat)
    requires i <= |s|
    ensures i <= j <= |s| && (j < |s| ==> !IsSpace(s[j])) && forall k :: i <= k < j ==> IsSpace(s[k])
    decreases |s| - i
  {
    if i < |s| && IsSpace(s[i]) then Skip(s, i + 1) else i
  }

  /** The end of the word that i is in. */
  function WordEnd(s: string, i: nat): (j: nat)
    requires i <= |s| && IsLine(s)
    ensures i <= j <= |s| && (j < |s| ==> !IsOrdinary(s[j])) && forall k :: i <= k < j ==> IsOrdinary(s[k])
    decreases |s| - i
  {
    if i < |s| && IsOrdinary(s[i]) then WordEnd(s, i + 1) else i
  }

  /** The token that starts at j, which is not white space. */
  function TokenAt(s: string, j: nat): (t: Token<Span>)
    requires j < |s| && IsLine(s) && !IsSpace(s[j])
  {
    if s[j] == '>' then if j + 1 < |s| && s[j + 1] == '>' then Append else Sym('>')
    else if IsSymbol(s[j]) then Sym(s[j])
    else Word(Span(j, WordEnd(s, j)))
  }

  function TokenEnd(s: string, j: nat): (e: nat)
    requires j < |s| && IsLine(s) && !IsSpace(s[j])
    ensures j < e <= |s|
  {
    match TokenAt(s, j)
    case Append => j + 2
    case Sym(_) => j + 1
    case Word(sp) => sp.eq
  }

  /** The tokens from i on. */
  function Lex(s: string, i: nat): (ts: seq<Token<Span>>)
    requires i <= |s| && IsLine(s)
    decreases |s| - i
  {
    var j := Skip(s, i);
    if j == |s| then [] else [TokenAt(s, j)] + Lex(s, TokenEnd(s, j))
  }

  /** A word as gettoken delimits it: as long as it can be. */
  predicate IsWord(s: string, sp: Span) {
    && sp.q < sp.eq <= |s|
    && (forall k :: sp.q <= k < sp.eq ==> IsOrdinary(s[k]))
    && (sp.eq < |s| ==> !IsOrdinary(s[sp.eq]))
  }

  lemma {:induction false} LexWords(s: string, i: nat, k: nat)
    requires i <= |s| && IsLine(s) && k < |Lex(s, i)| && Lex(s, i)[k].Word?
    ensures IsWord(s, Lex(s, i)[k].w)
    decreases |s| - i
  {
    var j := Skip(s, i);
    if k > 0 { LexWords(s, TokenEnd(s, j), k - 1); }
  }

  // -------- Texts --------

  function Text(s: string, sp: Span): string {
    if sp.q <= sp.eq <= |s| then s[sp.q..sp.eq] else ""
  }

  function TokenText(s: string, t: Token<Span>): Token<string> {
    match t
    case Sym(c) => Sym(c)
    case Append => Append
    case Word(sp) => Word(Text(s, sp))
  }

  predicate WordOk(w: string) {
    w != "" && forall k :: 0 <= k < |w| ==> IsOrdinary(w[k])
  }

  predicate TokenOk(t: Token<string>) {
    match t
    case Sym(c) => IsSymbol(c)
    case Append => true
    case Word(w) => WordOk(w)
  }

  /** A token written out, with a space after it. */
  function Spelling(t: Token<string>): string {
    match t
    case Sym(c) => [c] + " "
    case Append => ">> "
    case Word(w) => w + " "
  }

  function Render(ts: seq<Token<string>>): string
    decreases |ts|
  {
    if ts == [] then "" else Spelling(ts[0]) + Render(ts[1..])
  }

  lemma {:induction false} RenderIsLine(ts: seq<Token<string>>)
    requires forall k :: 0 <= k < |ts| ==> TokenOk(ts[k])
    ensures IsLine(Render(ts))
    decreases |ts|
  {
    if ts != [] {
      RenderIsLine(ts[1..]);
      assert IsLine(Spelling(ts[0]));
    }
  }

  /** Reading back one spelling. */
  lemma {:induction false} LexOne(pre: string, t: Token<string>, rest: string)
    requires TokenOk(t) && IsLine(pre + Spelling(t) + rest)
    ensures var s := pre + Spelling(t) + rest;
      && Skip(s, |pre|) == |pre| < |s| && !IsSpace(s[|pre|])
      && TokenText(s, TokenAt(s, |pre|)) == t && TokenEnd(s, |pre|) == |pre| + |Spelling(t)| - 1
  {
    var s := pre + Spelling(t) + rest;
    assert s[|pre|] == Spelling(t)[0];
    assert s[|pre| + |Spelling(t)| - 1] == ' ';
    match t
    case Sym(c) =>
    case Append => assert s[|pre| + 1] == Spelling(t)[1];
    case Word(w) =>
      forall k | |pre| <= k < |pre| + |w| ensures s[k] == w[k - |pre|] { }
      var e := WordEnd(s, |pre|);
      assert e == |pre| + |w|;
      assert s[|pre|..e] == w;
  }

  /** From i on, the line consists of these tokens. */
  predicate Reads(s: string, i: nat, ts: seq<Token<string>>)
    requires i <= |s| && IsLine(s)
  {
    |Lex(s, i)| == |ts| && forall k :: 0 <= k < |ts| ==> TokenText(s, Lex(s, i)[k]) == ts[k]
  }

  lemma {:induction false} ReadsCons(s: string, i: nat, j: nat, ts: seq<Token<string>>)
    requires i <= |s| && IsLine(s) && j == Skip(s, i) < |s| && |ts| > 0
    requires TokenText(s, TokenAt(s, j)) == ts[0] && Reads(s, TokenEnd(s, j), ts[1..])
    ensures Reads(s, i, ts)
  {
    assert Lex(s, i) == [TokenAt(s, j)] + Lex(s, TokenEnd(s, j));
    hide Lex, TokenAt, TokenText, TokenEnd;
  }

  /** The lexer undoes the printer. */
  lemma {:induction false} LexRender(pre: string, ts: seq<Token<string>>, i: nat)
    requires IsLine(pre + Render(ts)) && (forall k :: 0 <= k < |ts| ==> TokenOk(ts[k]))
    requires i == |pre| || (i + 1 == |pre| && pre[i] == ' ')
    ensures Reads(pre + Render(ts), i, ts)
    decreases |ts|
  {
    hide Reads, TokenOk, TokenAt, TokenText, TokenEnd;
    var s := pre + Render(ts);
    SkipTo(s, i, |pre|);
    hide Skip;
    if ts == [] {
      assert s == pre;
      ReadsNil(s, i);
    } else {
      var next := pre + Spelling(ts[0]);
      assert s == next + Render(ts[1..]);
      LexOne(pre, ts[0], Render(ts[1..]));
      Ends(pre, ts[0]);
      hide Spelling, IsLine;
      LexRender(next, ts[1..], |next| - 1);
      ReadsCons(s, i, |pre|, ts);
    }
  }

  lemma {:induction false} SkipTo(s: string, i: nat, j: nat)
    requires j <= |s| && (i == j || (i + 1 == j && s[i] == ' '))
    ensures Skip(s, i) == Skip(s, j)
  {
  }

  lemma {:induction false} ReadsNil(s: string, i: nat)
    requires i <= |s| && IsLine(s) && Skip(s, i) == Skip(s, |s|)
    ensures Reads(s, i, [])
  {
  }

  lemma Ends(pre: string, t: Token<string>)
    ensures var next := pre + Spelling(t); |next| > 0 && next[|next| - 1] == ' '
  {
  }
}
