/** The regular expression matcher of grep.c, proved sound and complete for a
    declarative semantics.

    A C string is a `string` without its terminating NUL: `re[0] == '\0'` is `|re| == 0`.
    The reference semantics does not search: a pattern is a list of items between two
    optional anchors, and a word is in the language of the list when it can be cut into
    one piece per item. */
module Grep {

  datatype Item = One(c: char) | Star(c: char)

  /** What follows a leading '^': items, and whether a final '$' pins the end. */
  datatype Pattern = Pattern(items: seq<Item>, toEnd: bool)

  predicate CharMatches(c: char, t: char) {
    c == '.' || c == t
  }

  /** The source's precedence: a star is looked for before a final '$'; '^' is a literal here. */
  function Parse(re: string): Pattern {
    if |re| == 0 then Pattern([], false)
    else if |re| >= 2 && re[1] == '*' then
      var rest := Parse(re[2..]);
      rest.(items := [Star(re[0])] + rest.items)
    else if re == "$" then Pattern([], true)
    else
      var rest := Parse(re[1..]);
      rest.(items := [One(re[0])] + rest.items)
  }

  predicate ItemMatches(item: Item, w: string) {
    match item
    case One(c) => |w| == 1 && CharMatches(c, w[0])
    case Star(c) => forall k :: 0 <= k < |w| ==> CharMatches(c, w[k])
  }

  function Flatten(pieces: seq<string>): string {
    if |pieces| == 0 then "" else pieces[0] + Flatten(pieces[1..])
  }

  ghost predicate Cuts(pieces: seq<string>, items: seq<Item>, w: string) {
    && |pieces| == |items|
    && Flatten(pieces) == w
    && forall i :: 0 <= i < |items| ==> ItemMatches(items[i], pieces[i])
  }

  ghost predicate InLanguage(items: seq<Item>, w: string) {
    exists pieces :: Cuts(pieces, items, w)
  }

  /** `text[i..j]` is an occurrence of the pattern. */
  ghost predicate Occurs(p: Pattern, text: string, i: nat, j: nat)
    requires i <= j <= |text|
  {
    InLanguage(p.items, text[i..j]) && (p.toEnd ==> j == |text|)
  }

  ghost predicate OccursAtStart(p: Pattern, text: string) {
    exists j: nat :: j <= |text| && Occurs(p, text, 0, j)
  }

  /** The meaning of a whole regular expression. */
  ghost predicate Matches(re: string, text: string) {
    if |re| > 0 && re[0] == '^' then
      OccursAtStart(Parse(re[1..]), text)
    else
      exists i: nat, j: nat :: i <= j <= |text| && Occurs(Parse(re), text, i, j)
  }

  // ----- properties of the reference semantics

  lemma EmptyItems(w: string)
    ensures InLanguage([], w) <==> w == ""
  {
    if w == "" { assert Cuts([], [], w); }
  }

  /** Concatenation at the first item. */
  lemma {:induction false} ConsItems(item: Item, items: seq<Item>, w: string)
    ensures InLanguage([item] + items, w) <==>
            exists k: nat :: k <= |w| && ItemMatches(item, w[..k]) && InLanguage(items, w[k..])
  {
    if InLanguage([item] + items, w) {
      var pieces :| Cuts(pieces, [item] + items, w);
      var k := |pieces[0]|;
      assert w == pieces[0] + Flatten(pieces[1..]);
      assert w[..k] == pieces[0] && w[k..] == Flatten(pieces[1..]);
      forall i | 0 <= i < |items| ensures ItemMatches(items[i], pieces[1..][i]) {
        assert items[i] == ([item] + items)[i + 1];
      }
      assert ItemMatches(([item] + items)[0], pieces[0]);
      assert Cuts(pieces[1..], items, w[k..]);
    }
    if k: nat :| k <= |w| && ItemMatches(item, w[..k]) && InLanguage(items, w[k..]) {
      var pieces :| Cuts(pieces, items, w[k..]);
      var all := [w[..k]] + pieces;
      assert all[1..] == pieces;
      assert w == w[..k] + w[k..];
      assert Cuts(all, [item] + items, w);
    }
  }

  lemma OccursHead(item: Item, p: Pattern, text: string, j: nat) returns (k: nat)
    requires j <= |text| && Occurs(p.(items := [item] + p.items), text, 0, j)
    ensures k <= |text| && ItemMatches(item, text[..k]) && OccursAtStart(p, text[k..])
  {
    ConsItems(item, p.items, text[0..j]);
    k :| k <= j && ItemMatches(item, text[0..j][..k]) && InLanguage(p.items, text[0..j][k..]);
    assert text[0..j][..k] == text[..k];
    assert text[0..j][k..] == text[k..][0..j - k];
    assert Occurs(p, text[k..], 0, j - k);
  }

  lemma OccursAfter(item: Item, p: Pattern, text: string, k: nat)
    requires k <= |text| && ItemMatches(item, text[..k]) && OccursAtStart(p, text[k..])
    ensures OccursAtStart(p.(items := [item] + p.items), text)
  {
    var j: nat :| j <= |text[k..]| && Occurs(p, text[k..], 0, j);
    assert text[0..k + j][..k] == text[..k];
    assert text[0..k + j][k..] == text[k..][0..j];
    ConsItems(item, p.items, text[0..k + j]);
    assert Occurs(p.(items := [item] + p.items), text, 0, k + j);
  }

  /** An occurrence at the start, seen from its first item. */
  lemma OccursCons(item: Item, p: Pattern, text: string)
    ensures OccursAtStart(p.(items := [item] + p.items), text) <==>
            exists k: nat :: k <= |text| && ItemMatches(item, text[..k]) && OccursAtStart(p, text[k..])
  {
    var q := p.(items := [item] + p.items);
    if OccursAtStart(q, text) {
      var j: nat :| j <= |text| && Occurs(q, text, 0, j);
      var k := OccursHead(item, p, text, j);
    }
    if k: nat :| k <= |text| && ItemMatches(item, text[..k]) && OccursAtStart(p, text[k..]) {
      OccursAfter(item, p, text, k);
    }
  }

  lemma OccursNone(toEnd: bool, text: string)
    ensures OccursAtStart(Pattern([], toEnd), text) <==> (toEnd ==> text == "")
  {
    EmptyItems(text[0..0]);
    if toEnd ==> text == "" {
      assert Occurs(Pattern([], toEnd), text, 0, 0);
    }
    if OccursAtStart(Pattern([], toEnd), text) {
      var j: nat :| j <= |text| && Occurs(Pattern([], toEnd), text, 0, j);
      EmptyItems(text[0..j]);
    }
  }

  lemma {:induction false} OccursOne(c: char, p: Pattern, text: string)
    ensures OccursAtStart(p.(items := [One(c)] + p.items), text) <==>
            |text| > 0 && CharMatches(c, text[0]) && OccursAtStart(p, text[1..])
  {
    OccursCons(One(c), p, text);
    if |text| > 0 && CharMatches(c, text[0]) && OccursAtStart(p, text[1..]) {
      assert ItemMatches(One(c), text[..1]);
    }
  }

  // ----- the matcher

  /** matchhere: is there an occurrence of `re` at the start of `text`? */
  method MatchHere(re: string, text: string) returns (r: bool)
    ensures r <==> OccursAtStart(Parse(re), text)
    decreases |re|, 0
  {
    if |re| == 0 {
      OccursNone(false, text);
      return true;
    }
    if |re| >= 2 && re[1] == '*' {
      r := MatchStar(re[0], re[2..], text);
      return;
    }
    if re[0] == '$' && |re| == 1 {
      assert re == "$";
      OccursNone(true, text);
      return |text| == 0;
    }
    assert re != "$";
    OccursOne(re[0], Parse(re[1..]), text);
    if |text| > 0 && (re[0] == '.' || re[0] == text[0]) {
      r := MatchHere(re[1..], text[1..]);
      return;
    }
    return false;
  }

  /** matchstar: is there an occurrence of `c*re` at the start of `text`?  The loop is the
      source's do-while; `t` counts the characters the star has consumed. */
  method MatchStar(c: char, re: string, text: string) returns (r: bool)
    ensures r <==> OccursAtStart(Parse(re).(items := [Star(c)] + Parse(re).items), text)
    decreases |re|, 1
  {
    OccursCons(Star(c), Parse(re), text);
    var t: nat := 0;
    while true
      invariant t <= |text|
      invariant forall k :: 0 <= k < t ==> CharMatches(c, text[k])
      invariant forall k: nat :: k < t ==> !OccursAtStart(Parse(re), text[k..])
      decreases |text| - t
    {
      var here := MatchHere(re, text[t..]);
      if here {
        assert ItemMatches(Star(c), text[..t]);
        return true;
      }
      if !(t < |text| && (text[t] == c || c == '.')) {
        break;
      }
      t := t + 1;
    }
    forall k: nat | k <= |text| && ItemMatches(Star(c), text[..k])
      ensures !OccursAtStart(Parse(re), text[k..])
    {
      if t < k { assert text[..k][t] == text[t]; }
    }
    return false;
  }

  lemma OccursFrom(p: Pattern, text: string)
    ensures (exists i: nat, j: nat :: i <= j <= |text| && Occurs(p, text, i, j)) <==>
            exists i: nat :: i <= |text| && OccursAtStart(p, text[i..])
  {
    if i: nat, j: nat :| i <= j <= |text| && Occurs(p, text, i, j) {
      assert text[i..][0..j - i] == text[i..j];
      assert Occurs(p, text[i..], 0, j - i);
      assert OccursAtStart(p, text[i..]);
    }
    if i: nat :| i <= |text| && OccursAtStart(p, text[i..]) {
      var j: nat :| j <= |text[i..]| && Occurs(p, text[i..], 0, j);
      assert text[i..][0..j] == text[i..i + j];
      assert Occurs(p, text, i, i + j);
    }
  }

  /** match: true exactly when the declarative semantics says the line matches. */
  method Match(re: string, text: string) returns (r: bool)
    ensures r <==> Matches(re, text)
  {
    if |re| > 0 && re[0] == '^' {
      r := MatchHere(re[1..], text);
      return;
    }
    OccursFrom(Parse(re), text);
    var t: nat := 0;
    while true
      invariant t <= |text|
      invariant forall k: nat :: k < t ==> !OccursAtStart(Parse(re), text[k..])
      decreases |text| - t
    {
      var here := MatchHere(re, text[t..]);
      if here {
        return true;
      }
      if t == |text| {
        break;
      }
      t := t + 1;
    }
    return false;
  }
}
