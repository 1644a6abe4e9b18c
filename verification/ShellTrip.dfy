/** Printing lines and command trees, and parsing them again. */
module ShellRoundTrip {
  import opened ShellGrammar
  import opened ShellText

  // ----- printing -----

  /** The tokens with white space only where they need it. */
  function Tight(ts: seq<Tok>): (t: string) {
    if ts == [] then ""
    else Spell(ts[0]) + (if |ts| > 1 && Clash(ts[0], ts[1]) then " " else "") + Tight(ts[1..])
  }

  ghost predicate AllToks(ts: seq<Tok>) {
    forall k :: 0 <= k < |ts| ==> IsTok(ts[k])
  }

  lemma {:induction false} TightAt(pre: string, ts: seq<Tok>) returns (at: seq<nat>)
    requires AllToks(ts)
    ensures |at| == |ts| + 1 && at[0] == |pre| && at[|ts|] == |pre + Tight(ts)|
    ensures forall k :: 0 <= k < |ts| ==> TokAt(pre + Tight(ts), ts, at, k)
    decreases |ts|
  {
    hide TokAt, IsTok, Clash;
    if ts == [] {
      at := [|pre|];
    } else {
      var gap := if |ts| > 1 && Clash(ts[0], ts[1]) then " " else "";
      var next := pre + Spell(ts[0]) + gap;
      assert pre + Tight(ts) == next + Tight(ts[1..]);
      var rest := TightAt(next, ts[1..]);
      at := [|pre|] + rest;
      TightFirst(pre, ts, gap, at);
      forall k | 0 <= k < |ts|
        ensures TokAt(pre + Tight(ts), ts, at, k)
      {
        if k > 0 {
          assert ts == [ts[0]] + ts[1..];
          ConsTok(pre + Tight(ts), ts[0], |pre|, ts[1..], rest, k - 1);
        }
      }
    }
  }

  lemma TightFirst(pre: string, ts: seq<Tok>, gap: string, at: seq<nat>)
    requires ts != [] && AllToks(ts) && gap == (if |ts| > 1 && Clash(ts[0], ts[1]) then " " else "")
    requires |at| == |ts| + 1 && at[0] == |pre| && at[1] == |pre| + |Spell(ts[0])| + |gap|
    ensures TokAt(pre + Tight(ts), ts, at, 0)
  {
    hide IsTok, Clash, Tight, Spell;
    TightStep(ts);
    Spot(pre, Spell(ts[0]), gap, Tight(ts[1..]));
    assert pre + (Spell(ts[0]) + gap + Tight(ts[1..])) == pre + Spell(ts[0]) + (gap + Tight(ts[1..]));
  }

  lemma TightStep(ts: seq<Tok>)
    requires ts != []
    ensures Tight(ts) == Spell(ts[0]) + (if |ts| > 1 && Clash(ts[0], ts[1]) then " " else "") + Tight(ts[1..])
  {
  }

  lemma Spot(pre: string, w: string, gap: string, rest: string)
    requires gap == "" || gap == " "
    ensures var t, e := pre + w + (gap + rest), |pre| + |w|;
            e + |gap| <= |t| && t[|pre|..e] == w && Blank(t, e, e + |gap|)
  {
    var t, e := pre + w + (gap + rest), |pre| + |w|;
    assert gap == " " ==> t[e] == ' ';
  }

  /** A line printed flat is read as what it means: words, redirections of all three kinds before, between and behind
      them, pipelines, lists and background commands, without parentheses or with. */
  lemma LineRoundTrip(l: Line)
    requires AllToks(LineToks(l))
    ensures var t := Tight(LineToks(l));
            var r := ParseCmd(t);
            if LineFits(l) then r.Ok? && Reading(t, r.value) == LineMeans(l) else r == Err(TooManyArgs)
  {
    hide ParseCmd, TokAt, Tight, LineToks, LineFits, LineMeans, Reading;
    var ts := LineToks(l);
    assert "" + Tight(ts) == Tight(ts);
    var at := TightAt("", ts);
    ReadsLine(Tight(ts), ts, at, l);
  }

  // ----- trees, fully parenthesised -----

  function WordPieces(ws: seq<string>): (ps: seq<Piece>)
    ensures |ps| == |ws| && forall i :: 0 <= i < |ws| ==> ps[i] == Arg(ws[i])
  {
    seq(|ws|, i requires 0 <= i < |ws| => Arg(ws[i]))
  }

  function In(tree: Tree): (s: Simple)
    decreases tree, 1
  {
    Group(LineFor(tree), [])
  }

  /** A line for every tree. */
  function LineFor(tree: Tree): (l: Line)
    decreases tree, 0
  {
    match tree
    case Run(ws) => Final(One(Plain(WordPieces(ws))), 0)
    case To(d, file, out) => Final(One(Group(LineFor(d), [Redirect(if out then Output else Input, file)])), 0)
    case Piped(l, r) => Final(Bar(In(l), One(In(r))), 0)
    case Then(l, r) => Semi(One(In(l)), 0, Final(One(In(r)), 0))
    case Behind(d) => Final(One(In(d)), 1)
  }

  ghost predicate Proper(tree: Tree) {
    match tree
    case Run(ws) => forall i :: 0 <= i < |ws| ==> IsTok(W(ws[i]))
    case To(d, file, _) => Proper(d) && IsTok(W(file))
    case Piped(l, r) => Proper(l) && Proper(r)
    case Then(l, r) => Proper(l) && Proper(r)
    case Behind(d) => Proper(d)
  }

  /** Every command has fewer than MAXARGS words. */
  ghost predicate Small(tree: Tree) {
    match tree
    case Run(ws) => |ws| < MAXARGS
    case To(d, _, _) => Small(d)
    case Piped(l, r) => Small(l) && Small(r)
    case Then(l, r) => Small(l) && Small(r)
    case Behind(d) => Small(d)
  }

  lemma {:induction false} WordsMean(ws: seq<string>)
    ensures Args(WordPieces(ws)) == ws && Reds(WordPieces(ws)) == []
    ensures (forall i :: 0 <= i < |ws| ==> IsTok(W(ws[i]))) ==> AllToks(PiecesToks(WordPieces(ws)))
    decreases |ws|
  {
    hide IsTok;
    if ws != [] {
      WordsMean(ws[1..]);
      assert WordPieces(ws)[1..] == WordPieces(ws[1..]);
    }
  }

  lemma {:induction false} LineForMeans(tree: Tree)
    ensures LineMeans(LineFor(tree)) == tree && (LineFits(LineFor(tree)) <==> Small(tree))
    decreases tree
  {
    match tree
    case Run(ws) =>
      WordsMean(ws);
      OneMeans(Plain(WordPieces(ws)), 0);
    case To(d, file, out) =>
      var r := Redirect(if out then Output else Input, file);
      LineForMeans(d);
      WrapsOne(d, r);
      OneMeans(Group(LineFor(d), [r]), 0);
    case Piped(l, r) =>
      LineForMeans(l);
      LineForMeans(r);
      OneMeans(In(l), 0);
      OneMeans(In(r), 0);
    case Then(l, r) =>
      LineForMeans(l);
      LineForMeans(r);
      OneMeans(In(l), 0);
      OneMeans(In(r), 0);
    case Behind(d) =>
      LineForMeans(d);
      OneMeans(In(d), 1);
  }

  lemma OneMeans(s: Simple, n: nat)
    ensures ChainMeans(One(s)) == SimpleMeans(s) && (ChainFits(One(s)) <==> SimpleFits(s))
    ensures LineMeans(Final(One(s), n)) == Behinds(SimpleMeans(s), n) && (LineFits(Final(One(s), n)) <==> SimpleFits(s))
    ensures s.Group? ==> SimpleMeans(s) == Wraps(LineMeans(s.line), s.rs) && (SimpleFits(s) <==> LineFits(s.line))
    ensures s.Plain? ==>
              SimpleMeans(s) == Wraps(Run(Args(s.ps)), Reds(s.ps)) && (SimpleFits(s) <==> |Args(s.ps)| < MAXARGS)
  {
  }

  lemma WrapsOne(tree: Tree, r: Redirect)
    ensures Wraps(tree, [r]) == To(tree, r.file, !r.dir.Input?)
  {
    assert Wraps(To(tree, r.file, !r.dir.Input?), []) == To(tree, r.file, !r.dir.Input?);
  }

  /** A line in parentheses has tokens only, if the line has. */
  lemma GroupToks(line: Line, rs: seq<Redirect>)
    requires AllToks(LineToks(line)) && AllToks(RedsToks(rs))
    ensures AllToks(SimpleToks(Group(line, rs)))
  {
    hide LineToks, RedsToks;
  }

  lemma RedToksAre(r: Redirect)
    requires IsTok(W(r.file))
    ensures AllToks(RedsToks([r]))
  {
    assert RedsToks([r]) == RedToks(r);
  }

  lemma {:induction false} LineForToks(tree: Tree)
    requires Proper(tree)
    ensures AllToks(LineToks(LineFor(tree)))
    decreases tree, 0
  {
    hide IsTok, RedsToks, SimpleToks;
    Marks();
    match tree
    case Run(ws) =>
      WordsMean(ws);
      assert LineToks(LineFor(tree)) == SimpleToks(Plain(WordPieces(ws)));
      PlainToks(WordPieces(ws));
    case To(d, file, out) =>
      var r := Redirect(if out then Output else Input, file);
      LineForToks(d);
      RedToksAre(r);
      GroupToks(LineFor(d), [r]);
      assert LineToks(LineFor(tree)) == SimpleToks(Group(LineFor(d), [r]));
    case Piped(l, r) =>
      InToks(l);
      InToks(r);
      assert ChainToks(One(In(r))) == SimpleToks(In(r)) && AmpToks(0) == [];
      assert LineToks(LineFor(tree)) == SimpleToks(In(l)) + ([Op("|")] + SimpleToks(In(r)));
    case Then(l, r) =>
      InToks(l);
      InToks(r);
      assert LineToks(Final(One(In(r)), 0)) == SimpleToks(In(r)) && AmpToks(0) == [];
      assert LineToks(LineFor(tree)) == SimpleToks(In(l)) + ([Op(";")] + SimpleToks(In(r)));
    case Behind(d) =>
      InToks(d);
      assert LineToks(LineFor(tree)) == SimpleToks(In(d)) + [Op("&")];
  }

  lemma {:induction false} InToks(tree: Tree)
    requires Proper(tree)
    ensures AllToks(SimpleToks(In(tree)))
    decreases tree, 1
  {
    LineForToks(tree);
    GroupToks(LineFor(tree), []);
  }

  lemma PlainToks(ps: seq<Piece>)
    ensures SimpleToks(Plain(ps)) == PiecesToks(ps)
  {
  }

  lemma Marks()
    ensures IsTok(Op("|")) && IsTok(Op(";")) && IsTok(Op("&"))
  {
  }

  /** Printing a tree with full parentheses and parsing give the tree back exactly when every command has fewer than
      MAXARGS words; otherwise the parser panics with "too many args". */
  lemma RoundTrip(tree: Tree)
    requires Proper(tree)
    ensures var t := Tight(LineToks(LineFor(tree)));
            var r := ParseCmd(t);
            if Small(tree) then r.Ok? && Reading(t, r.value) == tree else r == Err(TooManyArgs)
  {
    hide ParseCmd, Tight, LineToks, LineFits, LineMeans, Reading, LineFor;
    LineForMeans(tree);
    LineForToks(tree);
    LineRoundTrip(LineFor(tree));
  }
}
