/** The pattern matcher of grep.c, and the declarative language it decides.

    A C string is modelled as a `string` without its terminating NUL, so
    "p[0] is NUL" reads `|p| == 0`. */
module Grep {

  // -------- The language of a pattern, stated without reference to the matcher --------

  /** A pattern is a row of items: one character, or a starred character. */
  datatype Item = One(c: char) | Star(c: char)

  function Items(re: string): seq<Item> {
    if |re| == 0 then []
    else if |re| > 1 && re[1] == '*' then [Star(re[0])] + Items(re[2..])
    else [One(re[0])] + Items(re[1..])
  }

  predicate Fits(c: char, x: char) {
    c == '.' || c == x
  }

  /** The set of strings one item stands for. */
  predicate ItemLang(item: Item, s: string) {
    match item
    case One(c) => |s| == 1 && Fits(c, s[0])
    case Star(c) => forall k :: 0 <= k < |s| ==> Fits(c, s[k])
  }

  function Concat(parts: seq<string>): string {
    if |parts| == 0 then "" else parts[0] + Concat(parts[1..])
  }

  ghost predicate Decomposes(items: seq<Item>, parts: seq<string>, s: string) {
    && |parts| == |items|
    && Concat(parts) == s
    && forall k :: 0 <= k < |items| ==> ItemLang(items[k], parts[k])
  }

  /** A string belongs to a row of items when it can be cut into pieces, one per item. */
  ghost predicate InLang(items: seq<Item>, s: string) {
    exists parts :: Decomposes(items, parts, s)
  }

  /** A last item that is an unstarred `$` anchors the match at the end of the text. */
  predicate EndAnchored(items: seq<Item>) {
    |items| > 0 && items[|items| - 1] == One('$')
  }

  function Body(items: seq<Item>): seq<Item> {
    if EndAnchored(items) then items[..|items| - 1] else items
  }

  /** text[i..j] is an occurrence of the pattern row. */
  ghost predicate OccursAt(items: seq<Item>, text: string, i: nat, j: nat) {
    && i <= j <= |text|
    && (EndAnchored(items) ==> j == |text|)
    && InLang(Body(items), text[i..j])
  }

  ghost predicate MatchesPrefix(items: seq<Item>, text: string) {
    exists j: nat :: OccursAt(items, text, 0, j)
  }

  /** What grep promises: an occurrence somewhere, at offset 0 when the pattern starts with `^`. */
  ghost predicate Matches(re: string, text: string) {
    if |re| > 0 && re[0] == '^' then MatchesPrefix(Items(re[1..]), text)
    else exists i: nat, j: nat :: OccursAt(Items(re), text, i, j)
  }

  // -------- Unfolding the language from the left --------

  lemma InLangNil(s: string)
    ensures InLang([], s) <==> s == ""
  {
    if s == "" { assert Decomposes([], [], s); }
  }

  lemma InLangCons(item: Item, rest: seq<Item>, s: string, k: nat)
    requires k <= |s| && ItemLang(item, s[..k]) && InLang(rest, s[k..])
    ensures InLang([item] + rest, s)
  {
    var parts :| Decomposes(rest, parts, s[k..]);
    var all := [s[..k]] + parts;
    assert all[1..] == parts;
    assert Decomposes([item] + rest, all, s);
  }

  lemma InLangSplit(item: Item, rest: seq<Item>, s: string) returns (k: nat)
    requires InLang([item] + rest, s)
    ensures k <= |s| && ItemLang(item, s[..k]) && InLang(rest, s[k..])
  {
    var items := [item] + rest;
    var parts :| Decomposes(items, parts, s);
    k := |parts[0]|;
    assert s == parts[0] + Concat(parts[1..]);
    assert s[..k] == parts[0] && s[k..] == Concat(parts[1..]);
    assert ItemLang(items[0], parts[0]);
    forall i | 0 <= i < |rest| ensures ItemLang(rest[i], parts[1..][i]) {
      assert ItemLang(items[i + 1], parts[i + 1]);
    }
    assert Decomposes(rest, parts[1..], s[k..]);
  }

  lemma PrefixSplit(item: Item, rest: seq<Item>, text: string, j: nat) returns (k: nat)
    requires !(item == One('$') && rest == []) && OccursAt([item] + rest, text, 0, j)
    ensures k <= |text| && ItemLang(item, text[..k]) && MatchesPrefix(rest, text[k..])
  {
    hide InLang;
    assert Body([item] + rest) == [item] + Body(rest);
    k := InLangSplit(item, Body(rest), text[0..j]);
    assert text[0..j][..k] == text[..k];
    assert text[0..j][k..] == text[k..][0..j - k];
    assert OccursAt(rest, text[k..], 0, j - k);
  }

  lemma PrefixJoin(item: Item, rest: seq<Item>, text: string, k: nat, j: nat)
    requires !(item == One('$') && rest == [])
    requires k <= |text| && ItemLang(item, text[..k]) && OccursAt(rest, text[k..], 0, j)
    ensures OccursAt([item] + rest, text, 0, k + j)
  {
    hide InLang;
    assert Body([item] + rest) == [item] + Body(rest);
    var s := text[0..k + j];
    assert s[..k] == text[..k] && s[k..] == text[k..][0..j];
    InLangCons(item, Body(rest), s, k);
  }

  /** An item followed by more: some prefix belongs to the item and the remainder matches. */
  lemma PrefixCons(item: Item, rest: seq<Item>, text: string)
    requires !(item == One('$') && rest == [])
    ensures MatchesPrefix([item] + rest, text) <==>
            exists k: nat :: k <= |text| && ItemLang(item, text[..k]) && MatchesPrefix(rest, text[k..])
  {
    hide OccursAt, ItemLang;
    if j: nat :| OccursAt([item] + rest, text, 0, j) {
      var k := PrefixSplit(item, rest, text, j);
    }
    if k: nat :| k <= |text| && ItemLang(item, text[..k]) && MatchesPrefix(rest, text[k..]) {
      var j: nat :| OccursAt(rest, text[k..], 0, j);
      PrefixJoin(item, rest, text, k, j);
    }
  }

  lemma PrefixNil(text: string)
    ensures MatchesPrefix([], text)
  {
    InLangNil(text[0..0]);
    assert OccursAt([], text, 0, 0);
  }

  lemma PrefixEnd(text: string)
    ensures MatchesPrefix([One('$')], text) <==> text == ""
  {
    var items := [One('$')];
    assert Body(items) == [];
    if j: nat :| OccursAt(items, text, 0, j) { InLangNil(text[0..j]); }
    if text == "" { InLangNil(text[0..0]); assert OccursAt(items, text, 0, 0); }
  }

  lemma PrefixOne(c: char, rest: seq<Item>, text: string)
    requires !(c == '$' && rest == [])
    ensures MatchesPrefix([One(c)] + rest, text) <==>
            |text| > 0 && Fits(c, text[0]) && MatchesPrefix(rest, text[1..])
  {
    PrefixCons(One(c), rest, text);
    if |text| > 0 && Fits(c, text[0]) && MatchesPrefix(rest, text[1..]) {
      assert ItemLang(One(c), text[..1]);
    }
  }

  // -------- The matcher --------

  /** grep.c:84-95, search for re at the beginning of text. */
  method MatchHere(re: string, text: string) returns (found: bool)
    ensures found <==> MatchesPrefix(Items(re), text)
    decreases |re|, 0, 0
  {
    if |re| == 0 {
      PrefixNil(text);
      return true;
    }
    if |re| > 1 && re[1] == '*' {
      found := MatchStar(re[0], re[2..], text);
      return;
    }
    if re[0] == '$' && |re| == 1 {
      PrefixEnd(text);
      assert Items(re) == [One('$')];
      return |text| == 0;
    }
    assert Items(re[1..]) == [] ==> |re| == 1;
    PrefixOne(re[0], Items(re[1..]), text);
    if |text| != 0 && (re[0] == '.' || re[0] == text[0]) {
      found := MatchHere(re[1..], text[1..]);
      return;
    }
    return false;
  }

  lemma StarReaches(c: char, text: string, k: nat, n: nat)
    requires n < k <= |text| && ItemLang(Star(c), text[..k])
    ensures Fits(c, text[n])
  {
    assert text[..k][n] == text[n];
  }

  /** grep.c:98-105, search for c*re at the beginning of text. */
  method MatchStar(c: char, re: string, text: string) returns (found: bool)
    ensures found <==> MatchesPrefix([Star(c)] + Items(re), text)
    decreases |re|, 1, |text|
  {
    hide MatchesPrefix;
    PrefixCons(Star(c), Items(re), text);
    var n := 0;
    while true
      invariant n <= |text|
      invariant forall k :: 0 <= k < n ==> Fits(c, text[k])
      invariant forall k :: 0 <= k < n ==> !MatchesPrefix(Items(re), text[k..])
      decreases |text| - n
    {
      var here := MatchHere(re, text[n..]);
      if here {
        assert ItemLang(Star(c), text[..n]);
        return true;
      }
      if !(n < |text| && (text[n] == c || c == '.')) {
        break;
      }
      n := n + 1;
    }
    forall k: nat | k <= |text| && ItemLang(Star(c), text[..k])
      ensures k <= n
    {
      if k > n { StarReaches(c, text, k, n); }
    }
    return false;
  }

  /** grep.c:71-81: the matcher is sound and complete for the declarative language. */
  method Match(re: string, text: string) returns (found: bool)
    ensures found <==> Matches(re, text)
  {
    if |re| > 0 && re[0] == '^' {
      found := MatchHere(re[1..], text);
      return;
    }
    var n := 0;
    while true
      invariant n <= |text|
      invariant forall i, j: nat :: 0 <= i < n ==> !OccursAt(Items(re), text, i, j)
      decreases |text| - n
    {
      OccursInSuffix(Items(re), text, n);
      var here := MatchHere(re, text[n..]);
      if here {
        return true;
      }
      if n == |text| {
        return false;
      }
      n := n + 1;
    }
  }

  lemma OccursInSuffix(items: seq<Item>, text: string, i: nat)
    requires i <= |text|
    ensures MatchesPrefix(items, text[i..]) <==> exists j: nat :: OccursAt(items, text, i, j)
  {
    if j: nat :| OccursAt(items, text[i..], 0, j) {
      assert text[i..][0..j] == text[i..i + j];
      assert OccursAt(items, text, i, i + j);
    }
    if j: nat :| OccursAt(items, text, i, j) {
      assert text[i..j] == text[i..][0..j - i];
      assert OccursAt(items, text[i..], 0, j - i);
    }
  }
}
