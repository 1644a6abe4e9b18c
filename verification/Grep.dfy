/** grep.c: the matcher, against a declarative reading of its patterns. */
module Grep {

  // ----- what a pattern means -----

  /** One element of a pattern: a character or any run of it; the character '.' stands for every character. */
  datatype Item = One(c: char) | Many(c: char)

  /** A pattern without its leading '^': its elements, and whether a final '$' ties it to the end of the text. */
  datatype Pattern = Pattern(items: seq<Item>, atEnd: bool)

  predicate Fits(c: char, x: char) {
    c == '.' || c == x
  }

  ghost predicate InItem(item: Item, w: string) {
    match item
    case One(c) => |w| == 1 && Fits(c, w[0])
    case Many(c) => forall i :: 0 <= i < |w| ==> Fits(c, w[i])
  }

  function Parse(re: string): (p: Pattern) {
    if re == "" then Pattern([], false)
    else if |re| > 1 && re[1] == '*' then
      var rest := Parse(re[2..]);
      Pattern([Many(re[0])] + rest.items, rest.atEnd)
    else if re == "$" then Pattern([], true)
    else
      var rest := Parse(re[1..]);
      Pattern([One(re[0])] + rest.items, rest.atEnd)
  }

  function Concat(ws: seq<string>): (w: string) {
    if ws == [] then "" else ws[0] + Concat(ws[1..])
  }

  ghost predicate Splits(items: seq<Item>, ws: seq<string>) {
    |ws| == |items| && forall i :: 0 <= i < |items| ==> InItem(items[i], ws[i])
  }

  /** w is in the language of the elements: it splits into one word of each. */
  ghost predicate InLanguage(items: seq<Item>, w: string) {
    exists ws :: Splits(items, ws) && Concat(ws) == w
  }

  ghost predicate MatchedBy(p: Pattern, text: string, n: nat) {
    n <= |text| && InLanguage(p.items, text[..n]) && (p.atEnd ==> n == |text|)
  }

  /** Some prefix of text is in the language of re. */
  ghost predicate Here(re: string, text: string) {
    exists n: nat :: MatchedBy(Parse(re), text, n)
  }

  ghost predicate HereFrom(re: string, text: string, k: nat) {
    k <= |text| && Here(re, text[k..])
  }

  /** What grep prints a line for. */
  ghost predicate Matches(re: string, text: string) {
    if re != "" && re[0] == '^' then Here(re[1..], text) else exists k: nat :: HereFrom(re, text, k)
  }

  // ----- the first element of a pattern -----

  lemma LanguageNil(w: string)
    ensures InLanguage([], w) <==> w == ""
  {
    if w == "" {
      assert Splits([], []) && Concat([]) == "";
    }
  }

  ghost predicate CutAt(item: Item, items: seq<Item>, w: string, k: nat) {
    k <= |w| && InItem(item, w[..k]) && InLanguage(items, w[k..])
  }

  lemma LanguageCons(item: Item, items: seq<Item>, w: string)
    ensures InLanguage([item] + items, w) <==> exists k: nat :: CutAt(item, items, w, k)
  {
    hide Splits, Concat, CutAt;
    if InLanguage([item] + items, w) {
      var ws :| Splits([item] + items, ws) && Concat(ws) == w;
      FirstWord(item, items, ws);
    }
    if k: nat :| CutAt(item, items, w, k) {
      WordInFront(item, items, w, k);
    }
  }

  lemma FirstWord(item: Item, items: seq<Item>, ws: seq<string>)
    requires Splits([item] + items, ws)
    ensures ws != [] && CutAt(item, items, Concat(ws), |ws[0]|)
  {
  }

  lemma WordInFront(item: Item, items: seq<Item>, w: string, k: nat)
    requires CutAt(item, items, w, k)
    ensures InLanguage([item] + items, w)
  {
    hide InItem;
    var all := [item] + items;
    var rest :| Splits(items, rest) && Concat(rest) == w[k..];
    var ws := [w[..k]] + rest;
    assert ws[1..] == rest;
    assert forall i :: 1 <= i < |all| ==> all[i] == items[i - 1] && ws[i] == rest[i - 1];
    assert Splits(all, ws);
    assert Concat(ws) == w;
  }

  lemma HereEmpty(text: string)
    ensures Here("", text)
  {
    LanguageNil("");
    assert MatchedBy(Parse(""), text, 0);
  }

  lemma HereEnd(text: string)
    ensures Here("$", text) <==> text == ""
  {
    if text == "" {
      LanguageNil("");
      assert MatchedBy(Parse("$"), text, 0);
    } else if n: nat :| MatchedBy(Parse("$"), text, n) {
      LanguageNil(text[..n]);
    }
  }

  /** The element at the front takes k characters and the rest of the pattern matches what follows. */
  lemma HereCons(p: Pattern, item: Item, rest: Pattern, text: string)
    requires p == Pattern([item] + rest.items, rest.atEnd)
    ensures (exists n: nat :: MatchedBy(p, text, n)) <==> exists k: nat :: TakesThen(item, rest, text, k)
  {
    if n: nat :| MatchedBy(p, text, n) {
      LanguageCons(item, rest.items, text[..n]);
      var k: nat :| CutAt(item, rest.items, text[..n], k);
      assert text[..n][..k] == text[..k] && text[..n][k..] == text[k..][..n - k];
      assert MatchedBy(rest, text[k..], n - k);
      assert TakesThen(item, rest, text, k);
    }
    if k: nat :| TakesThen(item, rest, text, k) {
      var m: nat :| MatchedBy(rest, text[k..], m);
      var n := k + m;
      assert text[..n][..k] == text[..k] && text[..n][k..] == text[k..][..m];
      assert CutAt(item, rest.items, text[..n], k);
      LanguageCons(item, rest.items, text[..n]);
      assert MatchedBy(p, text, n);
    }
  }

  ghost predicate TakesThen(item: Item, rest: Pattern, text: string, k: nat) {
    k <= |text| && InItem(item, text[..k]) && exists m: nat :: MatchedBy(rest, text[k..], m)
  }

  lemma HereOne(re: string, text: string)
    requires re != "" && !(|re| > 1 && re[1] == '*') && re != "$"
    ensures Here(re, text) <==> text != "" && Fits(re[0], text[0]) && Here(re[1..], text[1..])
  {
    var rest := Parse(re[1..]);
    HereCons(Parse(re), One(re[0]), rest, text);
    if text != "" && Fits(re[0], text[0]) && Here(re[1..], text[1..]) {
      assert text[..1] == [text[0]];
      assert TakesThen(One(re[0]), rest, text, 1);
    }
  }

  ghost predicate StarThen(c: char, re: string, text: string, k: nat) {
    k <= |text| && (forall i :: 0 <= i < k ==> Fits(c, text[i])) && Here(re, text[k..])
  }

  lemma HereMany(re: string, text: string)
    requires |re| > 1 && re[1] == '*'
    ensures Here(re, text) <==> exists k: nat :: StarThen(re[0], re[2..], text, k)
  {
    var c, rest := re[0], Parse(re[2..]);
    HereCons(Parse(re), Many(c), rest, text);
    if k: nat :| TakesThen(Many(c), rest, text, k) {
      assert forall i :: 0 <= i < k ==> text[..k][i] == text[i];
      assert StarThen(c, re[2..], text, k);
    }
    if k: nat :| StarThen(c, re[2..], text, k) {
      assert TakesThen(Many(c), rest, text, k);
    }
  }

  // ----- what particular patterns match -----

  predicate Mark(c: char) {
    c == '^' || c == '$' || c == '.' || c == '*'
  }

  ghost predicate Literal(re: string) {
    forall i :: 0 <= i < |re| ==> !Mark(re[i])
  }

  /** Literal characters, at the start of the text, with or without a final '$'. */
  lemma {:induction false} LiteralHere(re: string, text: string)
    requires Literal(re)
    ensures Here(re, text) <==> re <= text
    ensures Here(re + "$", text) <==> re == text
    decreases |re|
  {
    hide Here;
    if re == "" {
      HereEmpty(text);
      HereEnd(text);
      assert re + "$" == "$";
    } else {
      assert (re + "$")[1..] == re[1..] + "$";
      assert |re| > 1 ==> !Mark(re[1]);
      HereOne(re, text);
      HereOne(re + "$", text);
      if text != "" {
        LiteralHere(re[1..], text[1..]);
        assert text == [text[0]] + text[1..] && re == [re[0]] + re[1..];
      }
    }
  }

  ghost predicate OccursAt(re: string, text: string, k: nat) {
    k + |re| <= |text| && text[k..k + |re|] == re
  }

  /** A literal pattern matches the texts in which it occurs. */
  lemma LiteralMatches(re: string, text: string)
    requires Literal(re)
    ensures Matches(re, text) <==> exists k: nat :: OccursAt(re, text, k)
  {
    hide Here;
    forall k: nat
      ensures HereFrom(re, text, k) <==> OccursAt(re, text, k)
    {
      if k <= |text| {
        LiteralHere(re, text[k..]);
        assert k + |re| <= |text| ==> text[k..][..|re|] == text[k..k + |re|];
      }
    }
  }

  /** Between '^' and '$' it matches exactly itself, and after '^' alone the texts that start with it. */
  lemma LiteralAnchored(re: string, text: string)
    requires Literal(re)
    ensures Matches("^" + re + "$", text) <==> text == re
    ensures Matches("^" + re, text) <==> re <= text
  {
    hide Here;
    LiteralHere(re, text);
    assert ("^" + re + "$")[1..] == re + "$" && ("^" + re)[1..] == re;
  }

  function Dots(n: nat): (re: string)
    ensures |re| == n && forall i :: 0 <= i < n ==> re[i] == '.'
  {
    if n == 0 then "" else "." + Dots(n - 1)
  }

  lemma {:induction false} DotsHere(n: nat, text: string)
    ensures Here(Dots(n) + "$", text) <==> |text| == n
    decreases n
  {
    hide Here;
    if n == 0 {
      HereEnd(text);
      assert Dots(0) + "$" == "$";
    } else {
      assert (Dots(n) + "$")[1..] == Dots(n - 1) + "$";
      HereOne(Dots(n) + "$", text);
      if text != "" {
        DotsHere(n - 1, text[1..]);
      }
    }
  }

  /** n dots match every text of n characters. */
  lemma DotsMatch(n: nat, text: string)
    ensures Matches("^" + Dots(n) + "$", text) <==> |text| == n
  {
    hide Here;
    DotsHere(n, text);
    assert ("^" + Dots(n) + "$")[1..] == Dots(n) + "$";
  }

  /** c* matches the runs of c, the empty one included, and .* everything. */
  lemma StarMatches(c: char, text: string)
    ensures Matches("^" + [c] + "*$", text) <==> c == '.' || forall i :: 0 <= i < |text| ==> text[i] == c
  {
    hide Here;
    var re := [c] + "*$";
    assert ("^" + [c] + "*$")[1..] == re && re[2..] == "$";
    HereMany(re, text);
    forall k: nat | k <= |text|
      ensures Here("$", text[k..]) <==> k == |text|
    {
      HereEnd(text[k..]);
    }
    if c == '.' || forall i :: 0 <= i < |text| ==> text[i] == c {
      assert StarThen(re[0], re[2..], text, |text|);
    }
    if k: nat :| StarThen(re[0], re[2..], text, k) {
      assert k == |text|;
    }
  }

  // ----- the code -----

  method MatchHere(re: string, text: string) returns (found: bool)
    ensures found <==> Here(re, text)
    decreases |re|, 0
  {
    hide *;
    if re == "" {
      HereEmpty(text);
      return true;
    }
    if |re| > 1 && re[1] == '*' {
      HereMany(re, text);
      found := MatchStar(re[0], re[2..], text);
      return;
    }
    if re == "$" {
      HereEnd(text);
      return text == "";
    }
    HereOne(re, text);
    if text != "" && Fits(re[0], text[0]) {
      found := MatchHere(re[1..], text[1..]);
      return;
    }
    return false;
  }

  method MatchStar(c: char, re: string, text: string) returns (found: bool)
    ensures found <==> exists k: nat :: StarThen(c, re, text, k)
    decreases |re|, 1
  {
    hide Here;
    var k := 0;
    while true
      invariant k <= |text| && forall i :: 0 <= i < k ==> Fits(c, text[i]) && !Here(re, text[i..])
      decreases |text| - k
    {
      found := MatchHere(re, text[k..]);
      if found {
        assert StarThen(c, re, text, k);
        return;
      }
      if k == |text| || !(text[k] == c || c == '.') {
        return;
      }
      k := k + 1;
    }
  }

  method Match(re: string, text: string) returns (found: bool)
    ensures found <==> Matches(re, text)
  {
    hide Here;
    if re != "" && re[0] == '^' {
      found := MatchHere(re[1..], text);
      return;
    }
    var k := 0;
    while true
      invariant k <= |text| && forall i: nat :: i < k ==> !HereFrom(re, text, i)
      decreases |text| - k
    {
      found := MatchHere(re, text[k..]);
      assert found <==> HereFrom(re, text, k);
      if found || k == |text| {
        return;
      }
      k := k + 1;
    }
  }
}
