/** Which texts the shell's parser accepts, and what it reads them as. */
module ShellText {
  import opened ShellGrammar

  // ----- reading a parsed command off the text -----

  datatype Tree =
    | Run(words: seq<string>)
    | To(tree: Tree, file: string, out: bool)
    | Piped(left: Tree, right: Tree)
    | Then(left: Tree, right: Tree)
    | Behind(tree: Tree)

  function SpanText(t: string, sp: Span): (w: string) {
    if sp.start <= sp.end <= |t| then t[sp.start..sp.end] else ""
  }

  function Texts(t: string, ss: seq<Span>): (ws: seq<string>) {
    seq(|ss|, i requires 0 <= i < |ss| => SpanText(t, ss[i]))
  }

  function Reading(t: string, c: Cmd): (r: Tree) {
    match c
    case Exec(argv) => Run(Texts(t, argv))
    case Redir(d, to) => To(Reading(t, d), SpanText(t, to.file), to.out)
    case Pipe(l, r) => Piped(Reading(t, l), Reading(t, r))
    case List(l, r) => Then(Reading(t, l), Reading(t, r))
    case Back(d) => Behind(Reading(t, d))
  }

  // ----- tokens and white space -----

  datatype Tok = W(w: string) | Op(op: string)

  predicate White(c: char) {
    c == ' ' || c == '\t' || c == '\r' || c == '\n' || c == '\U{000B}'
  }

  predicate Special(c: char) {
    c == '<' || c == '|' || c == '>' || c == '&' || c == ';' || c == '(' || c == ')'
  }

  ghost predicate IsTok(x: Tok) {
    match x
    case W(w) => w != "" && forall k :: 0 <= k < |w| ==> !White(w[k]) && !Special(w[k])
    case Op(o) => o == ">>" || (|o| == 1 && Special(o[0]))
  }

  function Spell(x: Tok): (s: string) {
    match x
    case W(w) => w
    case Op(o) => o
  }

  /** Without white space between them the two would read as something else. */
  predicate Clash(a: Tok, b: Tok) {
    (a.W? && b.W?) || (a == Op(">") && (b == Op(">") || b == Op(">>")))
  }

  ghost predicate Blank(t: string, i: nat, j: nat) {
    i <= j <= |t| && forall x :: i <= x < j ==> White(t[x])
  }

  ghost predicate TokAt(t: string, ts: seq<Tok>, at: seq<nat>, k: nat)
    requires k < |ts| && |at| == |ts| + 1
  {
    var e := at[k] + |Spell(ts[k])|;
    && IsTok(ts[k]) && e <= at[k + 1] <= |t| && t[at[k]..e] == Spell(ts[k]) && Blank(t, e, at[k + 1])
    && (k + 1 < |ts| && Clash(ts[k], ts[k + 1]) ==> e < at[k + 1])
  }

  /** t consists of the tokens ts, token k at position at[k], with white space between and around them. */
  ghost predicate Spells(t: string, ts: seq<Tok>, at: seq<nat>) {
    && |at| == |ts| + 1 && at[|ts|] == |t| && Blank(t, 0, at[0])
    && forall k :: 0 <= k < |ts| ==> TokAt(t, ts, at, k)
  }

  // ----- lines -----

  datatype Dir = Input | Output | Append

  datatype Redirect = Redirect(dir: Dir, file: string)

  datatype Piece = Arg(w: string) | Sent(r: Redirect)

  /** Words and redirections in any order, or a line in parentheses with redirections behind it. */
  datatype Simple = Plain(ps: seq<Piece>) | Group(line: Line, rs: seq<Redirect>)

  datatype Chain = One(s: Simple) | Bar(s: Simple, rest: Chain)

  datatype Line = Final(c: Chain, amps: nat) | Semi(c: Chain, amps: nat, rest: Line)

  function DirOp(d: Dir): (o: string) {
    match d
    case Input => "<"
    case Output => ">"
    case Append => ">>"
  }

  function RedToks(r: Redirect): (ts: seq<Tok>) {
    [Op(DirOp(r.dir)), W(r.file)]
  }

  function RedsToks(rs: seq<Redirect>): (ts: seq<Tok>) {
    if rs == [] then [] else RedToks(rs[0]) + RedsToks(rs[1..])
  }

  function PieceToks(p: Piece): (ts: seq<Tok>) {
    if p.Arg? then [W(p.w)] else RedToks(p.r)
  }

  function PiecesToks(ps: seq<Piece>): (ts: seq<Tok>) {
    if ps == [] then [] else PieceToks(ps[0]) + PiecesToks(ps[1..])
  }

  function AmpToks(n: nat): (ts: seq<Tok>) {
    if n == 0 then [] else [Op("&")] + AmpToks(n - 1)
  }

  function SimpleToks(s: Simple): (ts: seq<Tok>) {
    match s
    case Plain(ps) => PiecesToks(ps)
    case Group(line, rs) => [Op("(")] + (LineToks(line) + ([Op(")")] + RedsToks(rs)))
  }

  function ChainToks(c: Chain): (ts: seq<Tok>) {
    match c
    case One(s) => SimpleToks(s)
    case Bar(s, rest) => SimpleToks(s) + ([Op("|")] + ChainToks(rest))
  }

  function LineToks(l: Line): (ts: seq<Tok>) {
    match l
    case Final(c, n) => ChainToks(c) + AmpToks(n)
    case Semi(c, n, rest) => ChainToks(c) + (AmpToks(n) + ([Op(";")] + LineToks(rest)))
  }

  // ----- what a line means -----

  function Args(ps: seq<Piece>): (ws: seq<string>) {
    if ps == [] then [] else (if ps[0].Arg? then [ps[0].w] else []) + Args(ps[1..])
  }

  function Reds(ps: seq<Piece>): (rs: seq<Redirect>) {
    if ps == [] then [] else (if ps[0].Sent? then [ps[0].r] else []) + Reds(ps[1..])
  }

  /** The first redirection is the innermost; '>' and ">>" both open the file for writing. */
  function Wraps(tree: Tree, rs: seq<Redirect>): (r: Tree)
    decreases |rs|
  {
    if rs == [] then tree else Wraps(To(tree, rs[0].file, !rs[0].dir.Input?), rs[1..])
  }

  function Behinds(tree: Tree, n: nat): (r: Tree)
    decreases n
  {
    if n == 0 then tree else Behinds(Behind(tree), n - 1)
  }

  function SimpleMeans(s: Simple): (r: Tree) {
    match s
    case Plain(ps) => Wraps(Run(Args(ps)), Reds(ps))
    case Group(line, rs) => Wraps(LineMeans(line), rs)
  }

  function ChainMeans(c: Chain): (r: Tree) {
    match c
    case One(s) => SimpleMeans(s)
    case Bar(s, rest) => Piped(SimpleMeans(s), ChainMeans(rest))
  }

  function LineMeans(l: Line): (r: Tree) {
    match l
    case Final(c, n) => Behinds(ChainMeans(c), n)
    case Semi(c, n, rest) => Then(Behinds(ChainMeans(c), n), LineMeans(rest))
  }

  /** Every command has fewer than MAXARGS words. */
  predicate SimpleFits(s: Simple) {
    match s
    case Plain(ps) => |Args(ps)| < MAXARGS
    case Group(line, _) => LineFits(line)
  }

  predicate ChainFits(c: Chain) {
    match c
    case One(s) => SimpleFits(s)
    case Bar(s, rest) => SimpleFits(s) && ChainFits(rest)
  }

  predicate LineFits(l: Line) {
    match l
    case Final(c, _) => ChainFits(c)
    case Semi(c, _, rest) => ChainFits(c) && LineFits(rest)
  }

  // ----- tokens under the cursor -----

  ghost predicate NoSpace(t: string, i: nat) {
    i <= |t| && (i < |t| ==> !IsSpace(t[i]))
  }

  lemma {:induction false} WordEndIs(t: string, i: nat, e: nat)
    requires i <= e <= |t| && (forall k :: i <= k < e ==> InWord(t[k])) && (e < |t| ==> !InWord(t[e]))
    ensures WordEnd(t, i) == e
    decreases e - i
  {
  }

  lemma Classes(c: char)
    ensures IsSpace(c) <==> White(c)
    ensures IsSymbol(c) <==> Special(c)
  {
  }

  lemma {:induction false} SkipTo(t: string, i: nat, j: nat)
    requires Blank(t, i, j) && NoSpace(t, j)
    ensures Skip(t, i) == j
    decreases j - i
  {
    if i < j {
      Classes(t[i]);
      SkipTo(t, i + 1, j);
    }
  }

  /** The cursor at token k, or at the end. */
  lemma Cursor(t: string, ts: seq<Tok>, at: seq<nat>, k: nat)
    requires Spells(t, ts, at) && k <= |ts|
    ensures at[k] <= |t| && NoSpace(t, at[k]) && Skip(t, at[k]) == at[k]
    ensures at[k] == |t| <==> k == |ts|
    ensures k < |ts| ==> IsTok(ts[k]) && Spell(ts[k]) != "" && t[at[k]] == Spell(ts[k])[0]
  {
    if k < |ts| {
      assert TokAt(t, ts, at, k);
      var s := Spell(ts[k]);
      assert t[at[k]..at[k] + |s|][0] == s[0];
      Classes(s[0]);
    }
  }

  /** Which characters a token starts with. */
  predicate Starts(ts: seq<Tok>, k: nat, toks: string) {
    k < |ts| && Spell(ts[k]) != "" && Spell(ts[k])[0] in toks
  }

  lemma AtToken(t: string, ts: seq<Tok>, at: seq<nat>, k: nat, toks: string)
    requires Spells(t, ts, at) && k <= |ts|
    ensures at[k] <= |t| && (At(t, at[k], toks) <==> Starts(ts, k, toks))
  {
    Cursor(t, ts, at, k);
  }

  function KindOf(x: Tok): (r: Kind)
    requires Spell(x) != ""
  {
    if x.W? then Word else if x.op == ">>" then ShellGrammar.Append else Symbol(x.op[0])
  }

  lemma TokenHere(t: string, ts: seq<Tok>, at: seq<nat>, k: nat)
    requires Spells(t, ts, at) && k < |ts|
    ensures Spell(ts[k]) != "" && at[k] <= |t|
    ensures var e := at[k] + |Spell(ts[k])|;
            && GetToken(t, at[k]) == Token(KindOf(ts[k]), Span(at[k], e), at[k + 1])
            && SpanText(t, Span(at[k], e)) == Spell(ts[k])
  {
    hide TokAt, GetToken, Skip, WordEnd, Blank, White, Special, IsSpace, IsSymbol, Clash;
    Cursor(t, ts, at, k);
    Cursor(t, ts, at, k + 1);
    TokFacts(t, ts, at, k);
    var q, e := at[k], at[k] + |Spell(ts[k])|;
    SkipTo(t, e, at[k + 1]);
    if ts[k].W? {
      WordEndIs(t, q, e);
      WordIs(t, q, e, at[k + 1]);
    } else {
      Classes(t[q]);
      OpIs(t, q, ts[k].op, at[k + 1]);
    }
  }

  lemma WordIs(t: string, q: nat, e: nat, next: nat)
    requires q < e <= |t| && InWord(t[q]) && WordEnd(t, q) == e && Skip(t, q) == q && Skip(t, e) == next
    ensures GetToken(t, q) == Token(Word, Span(q, e), next)
  {
  }

  lemma OpIs(t: string, q: nat, op: string, next: nat)
    requires IsTok(Op(op)) && q + |op| <= |t| && t[q] == op[0] && Skip(t, q) == q && Skip(t, q + |op|) == next
    requires op == ">>" ==> t[q + 1] == '>'
    requires op == ">" && q + 1 < |t| ==> t[q + 1] != '>'
    ensures GetToken(t, q) == Token(KindOf(Op(op)), Span(q, q + |op|), next)
  {
    hide Skip, WordEnd;
    Classes(t[q]);
  }

  /** What stands in the text at token k and right behind it. */
  lemma TokFacts(t: string, ts: seq<Tok>, at: seq<nat>, k: nat)
    requires Spells(t, ts, at) && k < |ts|
    ensures var e := at[k] + |Spell(ts[k])|;
            && IsTok(ts[k]) && e <= at[k + 1] <= |t| && Blank(t, e, at[k + 1]) && t[at[k]..e] == Spell(ts[k])
            && (ts[k].W? ==> (forall x :: at[k] <= x < e ==> InWord(t[x])) && (e < |t| ==> !InWord(t[e])))
            && (ts[k] == Op(">") && e < |t| ==> t[e] != '>')
            && (ts[k] == Op(">>") ==> t[at[k]] == t[at[k] + 1] == '>')
  {
    assert TokAt(t, ts, at, k);
    var s := Spell(ts[k]);
    var q, e := at[k], at[k] + |Spell(ts[k])|;
    forall x | q <= x < e
      ensures t[x] == s[x - q]
    {
      assert t[q..e][x - q] == s[x - q];
    }
    if ts[k].W? {
      forall x | q <= x < e
        ensures InWord(t[x])
      {
        Classes(s[x - q]);
      }
    }
    if e < |t| {
      AfterTok(t, ts, at, k);
    }
  }

  lemma AfterTok(t: string, ts: seq<Tok>, at: seq<nat>, k: nat)
    requires Spells(t, ts, at) && k < |ts| && at[k] + |Spell(ts[k])| < |t|
    ensures var c := t[at[k] + |Spell(ts[k])|];
            (ts[k].W? ==> !InWord(c)) && (ts[k] == Op(">") ==> c != '>')
  {
    assert TokAt(t, ts, at, k);
    var e := at[k] + |Spell(ts[k])|;
    Classes(t[e]);
    if e == at[k + 1] {
      Cursor(t, ts, at, k + 1);
    } else {
      assert White(t[e]);
    }
  }

  // ----- redirections -----

  /** The tokens xs stand in ts from k on. */
  ghost predicate Has(ts: seq<Tok>, k: nat, xs: seq<Tok>) {
    k + |xs| <= |ts| && ts[k..k + |xs|] == xs
  }

  lemma HasParts(ts: seq<Tok>, k: nat, a: seq<Tok>, b: seq<Tok>)
    requires Has(ts, k, a + b)
    ensures Has(ts, k, a) && Has(ts, k + |a|, b)
  {
    var p := a + b;
    assert ts[k..k + |a|] == ts[k..k + |p|][..|a|] == p[..|a|] == a;
    assert ts[k + |a|..k + |p|] == ts[k..k + |p|][|a|..] == p[|a|..] == b;
  }

  lemma HasFits(ts: seq<Tok>, k: nat, xs: seq<Tok>)
    requires Has(ts, k, xs)
    ensures k + |xs| <= |ts|
  {
  }

  lemma HasOne(ts: seq<Tok>, k: nat, x: Tok)
    requires Has(ts, k, [x])
    ensures k < |ts| && ts[k] == x
  {
    assert ts[k] == ts[k..k + 1][0];
  }

  /** Parsed redirections read as rs. */
  ghost predicate ReadsAs(t: string, xs: seq<Redirection>, rs: seq<Redirect>) {
    |xs| == |rs| && forall i :: 0 <= i < |rs| ==> ReadsOne(t, xs[i], rs[i])
  }

  ghost predicate ReadsOne(t: string, x: Redirection, r: Redirect) {
    SpanText(t, x.file) == r.file && x.out == !r.dir.Input?
  }

  lemma {:induction false} RedirsAt(t: string, ts: seq<Tok>, at: seq<nat>, k: nat, rs: seq<Redirect>)
    requires Spells(t, ts, at) && Has(ts, k, RedsToks(rs)) && !Starts(ts, k + |RedsToks(rs)|, "<>")
    ensures k + |RedsToks(rs)| <= |ts| && at[k] <= |t|
    ensures var r := Redirs(t, at[k]); r.Ok? && r.pos == at[k + |RedsToks(rs)|] && ReadsAs(t, r.value, rs)
    decreases |rs|
  {
    hide TokAt, GetToken, Skip, Redirs, At, Starts, SpanText, RedToks, KindOf;
    Cursor(t, ts, at, k);
    AtToken(t, ts, at, k, "<>");
    RedirsStep(t, at[k]);
    if rs != [] {
      HasParts(ts, k, RedToks(rs[0]), RedsToks(rs[1..]));
      RedHere(t, ts, at, k, rs[0]);
      RedirsAt(t, ts, at, k + 2, rs[1..]);
    }
  }

  lemma RedHere(t: string, ts: seq<Tok>, at: seq<nat>, k: nat, r: Redirect)
    requires Spells(t, ts, at) && Has(ts, k, RedToks(r))
    ensures |RedToks(r)| == 2 && k + 2 <= |ts| && Starts(ts, k, "<>") && at[k] <= |t| && at[k + 1] <= |t|
    ensures var op, name := GetToken(t, at[k]), GetToken(t, at[k + 1]);
            && op.next == at[k + 1] && name.next == at[k + 2] && name.kind.Word?
            && ReadsOne(t, Redirection(name.span, op.kind != Symbol('<')), r)
  {
    hide Spells, TokAt, GetToken, SpanText;
    HasParts(ts, k, [Op(DirOp(r.dir))], [W(r.file)]);
    HasOne(ts, k, Op(DirOp(r.dir)));
    HasOne(ts, k + 1, W(r.file));
    TokenHere(t, ts, at, k);
    TokenHere(t, ts, at, k + 1);
  }

  lemma {:induction false} ReadingWrap(t: string, c: Cmd, xs: seq<Redirection>, rs: seq<Redirect>)
    requires ReadsAs(t, xs, rs)
    ensures Reading(t, Wrap(c, xs)) == Wraps(Reading(t, c), rs)
    decreases |xs|
  {
    if xs != [] {
      assert ReadsOne(t, xs[0], rs[0]);
      ReadingWrap(t, Redir(c, xs[0]), xs[1..], rs[1..]);
    }
  }

  // ----- words and redirections in any order -----

  /** How many redirections ps starts with. */
  function Lead(ps: seq<Piece>): (n: nat)
    ensures n <= |ps| && (n < |ps| ==> ps[n].Arg?) && forall i :: 0 <= i < n ==> ps[i].Sent?
  {
    if ps == [] || ps[0].Arg? then 0 else 1 + Lead(ps[1..])
  }

  lemma Assoc<T>(a: seq<T>, b: seq<T>, c: seq<T>)
    ensures a + (b + c) == a + b + c
  {
  }

  lemma {:induction false} ArgsJoin(a: seq<Piece>, b: seq<Piece>)
    ensures Args(a + b) == Args(a) + Args(b)
    decreases |a|
  {
    if a == [] {
      assert a + b == b;
    } else {
      assert (a + b)[1..] == a[1..] + b;
      ArgsJoin(a[1..], b);
      Assoc(if a[0].Arg? then [a[0].w] else [], Args(a[1..]), Args(b));
    }
  }

  lemma {:induction false} RedsJoin(a: seq<Piece>, b: seq<Piece>)
    ensures Reds(a + b) == Reds(a) + Reds(b)
    decreases |a|
  {
    if a == [] {
      assert a + b == b;
    } else {
      assert (a + b)[1..] == a[1..] + b;
      RedsJoin(a[1..], b);
      Assoc(if a[0].Sent? then [a[0].r] else [], Reds(a[1..]), Reds(b));
    }
  }

  lemma {:induction false} PiecesJoin(a: seq<Piece>, b: seq<Piece>)
    ensures PiecesToks(a + b) == PiecesToks(a) + PiecesToks(b)
    decreases |a|
  {
    hide PieceToks;
    if a == [] {
      assert a + b == b;
    } else {
      assert (a + b)[1..] == a[1..] + b;
      PiecesJoin(a[1..], b);
      assert PiecesToks(a + b) == PieceToks(a[0]) + (PiecesToks(a[1..]) + PiecesToks(b));
    }
  }

  lemma {:induction false} OnlySent(ps: seq<Piece>)
    requires forall i :: 0 <= i < |ps| ==> ps[i].Sent?
    ensures Args(ps) == [] && PiecesToks(ps) == RedsToks(Reds(ps))
    decreases |ps|
  {
    if ps != [] {
      OnlySent(ps[1..]);
      assert Reds(ps)[1..] == Reds(ps[1..]);
    }
  }

  /** The redirections ps starts with, and what they leave. */
  lemma LeadParts(ps: seq<Piece>)
    ensures var lead, rest := ps[..Lead(ps)], ps[Lead(ps)..];
            && Reds(ps) == Reds(lead) + Reds(rest) && Args(ps) == Args(rest) && Lead(rest) == 0
            && PiecesToks(ps) == RedsToks(Reds(lead)) + PiecesToks(rest)
  {
    hide Args, Reds, PiecesToks, RedsToks;
    var lead, rest := ps[..Lead(ps)], ps[Lead(ps)..];
    assert ps == lead + rest;
    ArgsJoin(lead, rest);
    RedsJoin(lead, rest);
    PiecesJoin(lead, rest);
    OnlySent(lead);
    assert Args(lead) + Args(rest) == Args(rest);
  }

  /** Pieces that start with a word: the word, the redirections behind it, and the rest. */
  lemma WordFirst(ps: seq<Piece>) returns (w: string, lead: seq<Redirect>, rest: seq<Piece>)
    requires ps != [] && Lead(ps) == 0
    ensures Args(ps) == [w] + Args(rest) && Reds(ps) == lead + Reds(rest) && Lead(rest) == 0 && |rest| < |ps|
    ensures PiecesToks(ps) == [W(w)] + (RedsToks(lead) + PiecesToks(rest))
  {
    var tail := ps[1..];
    LeadParts(tail);
    w, lead, rest := ps[0].w, Reds(tail[..Lead(tail)]), tail[Lead(tail)..];
    hide RedsToks;
  }

  /** A command of words and redirections that the word loop returned. */
  ghost predicate Loaded(t: string, r: Parsed<Cmd>, ws: seq<string>, rs: seq<Redirect>, e: nat) {
    r.Ok? && r.pos == e && Reading(t, r.value) == Wraps(Run(ws), rs)
  }

  /** The end of a command. */
  predicate Stop(ts: seq<Tok>, k: nat) {
    k == |ts| || Starts(ts, k, "|)&;")
  }

  lemma {:induction false} WordsAt(t: string, ts: seq<Tok>, at: seq<nat>, k: nat, ps: seq<Piece>, argv: seq<Span>,
                                   xs: seq<Redirection>, rs: seq<Redirect>)
    requires Spells(t, ts, at) && Has(ts, k, PiecesToks(ps)) && Stop(ts, k + |PiecesToks(ps)|) && Lead(ps) == 0
    requires AllTokens(t, argv) && AllTokens(t, Files(xs)) && ReadsAs(t, xs, rs) && |argv| < MAXARGS
    ensures k + |PiecesToks(ps)| <= |ts| && at[k] <= |t|
    ensures var r := Words(t, at[k], argv, xs);
            if |argv| + |Args(ps)| < MAXARGS
            then Loaded(t, r, Texts(t, argv) + Args(ps), rs + Reds(ps), at[k + |PiecesToks(ps)|])
            else r == Err(TooManyArgs)
    decreases |ps|
  {
    hide *;
    if ps == [] {
      NoPieces(ps);
      HasFits(ts, k, PiecesToks(ps));
      WordsStop(t, ts, at, k, argv, xs, rs);
    } else {
      var w, lead, rest := WordFirst(ps);
      Measured(ts, k, w, RedsToks(lead), PiecesToks(rest));
      var k2 := k + 1 + |RedsToks(lead)|;
      var argv2, xs2 := WordsGo(t, ts, at, k, w, lead, rest, argv, xs, rs);
      if |argv| + 1 < MAXARGS {
        WordsAt(t, ts, at, k2, rest, argv2, xs2, rs + lead);
        assert Texts(t, argv) + [w] + Args(rest) == Texts(t, argv) + Args(ps);
        assert rs + lead + Reds(rest) == rs + Reds(ps);
      }
    }
  }

  lemma NoPieces(ps: seq<Piece>)
    requires ps == []
    ensures PiecesToks(ps) == [] && Args(ps) == [] && Reds(ps) == []
  {
  }

  lemma Measured(ts: seq<Tok>, k: nat, w: string, a: seq<Tok>, b: seq<Tok>)
    requires Has(ts, k, [W(w)] + (a + b))
    ensures Has(ts, k, [W(w)]) && Has(ts, k + 1, a) && Has(ts, k + 1 + |a|, b) && k + 1 + |a| + |b| <= |ts|
    ensures |[W(w)] + (a + b)| == 1 + |a| + |b|
  {
    HasParts(ts, k, [W(w)], a + b);
    HasParts(ts, k + 1, a, b);
  }

  /** One round of the word loop: a word and the redirections behind it. */
  lemma WordsGo(t: string, ts: seq<Tok>, at: seq<nat>, k: nat, w: string, lead: seq<Redirect>, rest: seq<Piece>,
                argv: seq<Span>, xs: seq<Redirection>, rs: seq<Redirect>)
    returns (argv2: seq<Span>, xs2: seq<Redirection>)
    requires Spells(t, ts, at) && AllTokens(t, argv) && AllTokens(t, Files(xs)) && ReadsAs(t, xs, rs)
    requires Has(ts, k, [W(w)]) && Has(ts, k + 1, RedsToks(lead)) && Has(ts, k + 1 + |RedsToks(lead)|, PiecesToks(rest))
    requires Lead(rest) == 0 && Stop(ts, k + 1 + |RedsToks(lead)| + |PiecesToks(rest)|)
    ensures k + 1 + |RedsToks(lead)| <= |ts| && |at| == |ts| + 1
    ensures at[k] <= |t| && at[k + 1 + |RedsToks(lead)|] <= |t|
    ensures AllTokens(t, argv2) && AllTokens(t, Files(xs2)) && ReadsAs(t, xs2, rs + lead)
    ensures |argv2| == |argv| + 1 && Texts(t, argv2) == Texts(t, argv) + [w]
    ensures Words(t, at[k], argv, xs) ==
            if |argv| + 1 >= MAXARGS then Err(TooManyArgs)
            else Words(t, at[k + 1 + |RedsToks(lead)|], argv2, xs2)
  {
    hide TokAt, Has, Redirs, Words, AllTokens, Texts, SpanText, ReadsAs, RedsToks, PiecesToks, Stop, Starts;
    HasOne(ts, k, W(w));
    NoMore(t, ts, at, k + 1 + |RedsToks(lead)|, rest);
    RedirsAt(t, ts, at, k + 1, lead);
    WordStep(t, ts, at, k, argv, xs);
    Cursor(t, ts, at, k + 1 + |RedsToks(lead)|);
    var sp, more := Span(at[k], at[k] + |w|), Redirs(t, at[k + 1]);
    argv2, xs2 := argv + [sp], xs + more.value;
    ReadsJoin(t, xs, rs, more.value, lead);
    TextsJoin(t, argv, sp);
  }

  lemma TextsJoin(t: string, argv: seq<Span>, sp: Span)
    ensures Texts(t, argv + [sp]) == Texts(t, argv) + [SpanText(t, sp)]
  {
  }

  lemma ReadsJoin(t: string, xs: seq<Redirection>, rs: seq<Redirect>, ys: seq<Redirection>, qs: seq<Redirect>)
    requires ReadsAs(t, xs, rs) && ReadsAs(t, ys, qs)
    ensures ReadsAs(t, xs + ys, rs + qs)
  {
  }

  /** Behind leading redirections comes a word or the end of the command. */
  lemma NoMore(t: string, ts: seq<Tok>, at: seq<nat>, k: nat, ps: seq<Piece>)
    requires Spells(t, ts, at) && Has(ts, k, PiecesToks(ps)) && Lead(ps) == 0 && Stop(ts, k + |PiecesToks(ps)|)
    ensures !Starts(ts, k, "<>")
  {
    if ps != [] {
      HasParts(ts, k, [W(ps[0].w)], PiecesToks(ps[1..]));
      HasOne(ts, k, W(ps[0].w));
      assert TokAt(t, ts, at, k);
    }
  }

  lemma WordsStop(t: string, ts: seq<Tok>, at: seq<nat>, k: nat, argv: seq<Span>, xs: seq<Redirection>,
                  rs: seq<Redirect>)
    requires Spells(t, ts, at) && k <= |ts| && Stop(ts, k)
    requires AllTokens(t, argv) && AllTokens(t, Files(xs)) && ReadsAs(t, xs, rs)
    ensures at[k] <= |t| && Loaded(t, Words(t, at[k], argv, xs), Texts(t, argv) + [], rs + [], at[k])
  {
    hide TokAt, AllTokens, Wrap, Wraps;
    Cursor(t, ts, at, k);
    AtToken(t, ts, at, k, "|)&;");
    ReadingWrap(t, Exec(argv), xs, rs);
    assert Texts(t, argv) + [] == Texts(t, argv) && rs + [] == rs;
  }

  lemma WordStep(t: string, ts: seq<Tok>, at: seq<nat>, k: nat, argv: seq<Span>, xs: seq<Redirection>)
    requires Spells(t, ts, at) && k < |ts| && ts[k].W?
    requires AllTokens(t, argv) && AllTokens(t, Files(xs))
    ensures at[k] <= |t| && at[k + 1] <= |t|
    ensures var sp, more := Span(at[k], at[k] + |ts[k].w|), Redirs(t, at[k + 1]);
            && SpanText(t, sp) == ts[k].w
            && (more.Ok? ==> AllTokens(t, argv + [sp]) && AllTokens(t, Files(xs + more.value)))
            && Words(t, at[k], argv, xs) ==
               if |argv| + 1 >= MAXARGS then Err(TooManyArgs)
               else if more.Err? then Err(more.panic)
               else Words(t, more.pos, argv + [sp], xs + more.value)
  {
    hide TokAt, GetToken, Skip, Redirs, AllTokens, Wrap;
    Cursor(t, ts, at, k);
    TokenHere(t, ts, at, k);
    AtToken(t, ts, at, k, "|)&;");
    var more := Redirs(t, at[k + 1]);
    if more.Ok? {
      TokensJoin(t, argv, GetToken(t, at[k]).span, xs, more.value);
    }
  }

  // ----- commands, pipelines and lines -----

  /** The parser gave the tree back and stopped at e, or found too many words. */
  ghost predicate Gives(t: string, r: Parsed<Cmd>, fits: bool, tree: Tree, e: nat) {
    if fits then r.Ok? && r.pos == e && Reading(t, r.value) == tree else r == Err(TooManyArgs)
  }

  lemma {:induction false} SimpleAt(t: string, ts: seq<Tok>, at: seq<nat>, k: nat, s: Simple)
    requires Spells(t, ts, at) && Has(ts, k, SimpleToks(s)) && Stop(ts, k + |SimpleToks(s)|)
    ensures k + |SimpleToks(s)| <= |ts| && at[k] <= |t|
    ensures Gives(t, ParseExec(t, at[k]), SimpleFits(s), SimpleMeans(s), at[k + |SimpleToks(s)|])
    decreases s, 0
  {
    hide ParseExec, TokAt, Has, Stop, LineToks, PiecesToks, RedsToks, LineMeans, LineFits, Gives;
    HasFits(ts, k, SimpleToks(s));
    Cursor(t, ts, at, k);
    match s
    case Plain(ps) =>
      PlainAt(t, ts, at, k, ps);
    case Group(line, rs) =>
      var n := |LineToks(line)|;
      GroupParts(ts, k, LineToks(line), RedsToks(rs));
      LineAt(t, ts, at, k + 1, line);
      GroupAt(t, ts, at, k, line, rs);
  }

  /** Words and redirections as parseexec reads them. */
  lemma PlainAt(t: string, ts: seq<Tok>, at: seq<nat>, k: nat, ps: seq<Piece>)
    requires Spells(t, ts, at) && Has(ts, k, PiecesToks(ps)) && Stop(ts, k + |PiecesToks(ps)|)
    ensures k + |PiecesToks(ps)| <= |ts| && at[k] <= |t|
    ensures Gives(t, ParseExec(t, at[k]), |Args(ps)| < MAXARGS, Wraps(Run(Args(ps)), Reds(ps)),
                  at[k + |PiecesToks(ps)|])
  {
    hide TokAt, Has, Stop, Starts, Redirs, Words, ParseExec, Reading, Wraps, PiecesToks, RedsToks, AllTokens, At, Skip,
      Args, Reds, Texts, Files, NoSpace;
    HasFits(ts, k, PiecesToks(ps));
    Cursor(t, ts, at, k);
    LeadParts(ps);
    var lead, rest := Reds(ps[..Lead(ps)]), ps[Lead(ps)..];
    var k2 := k + |RedsToks(lead)|;
    HasParts(ts, k, RedsToks(lead), PiecesToks(rest));
    NoParen(t, ts, at, k, ps);
    NoMore(t, ts, at, k2, rest);
    RedirsAt(t, ts, at, k, lead);
    PlainStep(t, at[k]);
    WordsAt(t, ts, at, k2, rest, [], Redirs(t, at[k]).value, lead);
    assert [] + Args(rest) == Args(ps);
  }

  lemma PlainStep(t: string, i: nat)
    requires i <= |t| && Skip(t, i) == i && !At(t, i, "(") && Redirs(t, i).Ok?
    ensures AllTokens(t, []) && Texts(t, []) == []
    ensures ParseExec(t, i) == Words(t, Redirs(t, i).pos, [], Redirs(t, i).value)
  {
    hide Redirs, Words, ParseBlock, At, Skip;
  }

  lemma NoTokens(t: string)
    ensures AllTokens(t, [])
  {
  }

  lemma NoParen(t: string, ts: seq<Tok>, at: seq<nat>, k: nat, ps: seq<Piece>)
    requires Spells(t, ts, at) && Has(ts, k, PiecesToks(ps)) && Stop(ts, k + |PiecesToks(ps)|)
    ensures k <= |ts| && at[k] <= |t| && !At(t, at[k], "(")
  {
    hide TokAt, Has, At;
    HasFits(ts, k, PiecesToks(ps));
    AtToken(t, ts, at, k, "(");
    if ps != [] {
      var x := FirstTok(ps);
      HasParts(ts, k, [x], PiecesToks(ps)[1..]);
      HasOne(ts, k, x);
      Cursor(t, ts, at, k);
      NotParen(ts, k, ps[0]);
    }
  }

  lemma FirstTok(ps: seq<Piece>) returns (x: Tok)
    requires ps != []
    ensures PiecesToks(ps) == [x] + PiecesToks(ps)[1..] && x == PieceToks(ps[0])[0]
  {
    x := PieceToks(ps[0])[0];
  }

  lemma NotParen(ts: seq<Tok>, k: nat, p: Piece)
    requires k < |ts| && ts[k] == PieceToks(p)[0] && IsTok(ts[k])
    ensures !Starts(ts, k, "(")
  {
  }

  lemma GroupParts(ts: seq<Tok>, k: nat, a: seq<Tok>, b: seq<Tok>)
    requires Has(ts, k, [Op("(")] + (a + ([Op(")")] + b)))
    ensures var k2 := k + 1 + |a|;
            && k2 + 1 + |b| <= |ts| && ts[k] == Op("(") && Has(ts, k + 1, a) && ts[k2] == Op(")") && Has(ts, k2 + 1, b)
            && |[Op("(")] + (a + ([Op(")")] + b))| == |a| + |b| + 2 && Stop(ts, k2)
  {
    HasParts(ts, k, [Op("(")], a + ([Op(")")] + b));
    HasOne(ts, k, Op("("));
    HasParts(ts, k + 1, a, [Op(")")] + b);
    HasParts(ts, k + 1 + |a|, [Op(")")], b);
    HasOne(ts, k + 1 + |a|, Op(")"));
  }

  /** A line in parentheses, given what parseline makes of it. */
  lemma GroupAt(t: string, ts: seq<Tok>, at: seq<nat>, k: nat, line: Line, rs: seq<Redirect>)
    requires Spells(t, ts, at) && k + 1 + |LineToks(line)| < |ts| && at[k + 1] <= |t|
    requires ts[k] == Op("(") && ts[k + 1 + |LineToks(line)|] == Op(")")
    requires Has(ts, k + 2 + |LineToks(line)|, RedsToks(rs)) && Stop(ts, k + 2 + |LineToks(line)| + |RedsToks(rs)|)
    requires Gives(t, ParseLine(t, at[k + 1]), LineFits(line), LineMeans(line), at[k + 1 + |LineToks(line)|])
    ensures k + 2 + |LineToks(line)| + |RedsToks(rs)| <= |ts| && at[k] <= |t|
    ensures Gives(t, ParseExec(t, at[k]), LineFits(line), Wraps(LineMeans(line), rs),
                  at[k + 2 + |LineToks(line)| + |RedsToks(rs)|])
  {
    hide TokAt, Has, GetToken, Skip, Redirs, ParseExec, ParseLine, Reading, Wraps, Wrap, RedsToks, LineToks, LineFits,
      LineMeans, At, ReadsAs;
    var k2 := k + 1 + |LineToks(line)|;
    HasFits(ts, k2 + 1, RedsToks(rs));
    OpHere(t, ts, at, k, "(");
    OpHere(t, ts, at, k2, ")");
    RedirsAt(t, ts, at, k2 + 1, rs);
    GroupStep(t, at[k], at[k + 1], at[k2], at[k2 + 1]);
    if LineFits(line) {
      ReadingWrap(t, ParseLine(t, at[k + 1]).value, Redirs(t, at[k2 + 1]).value, rs);
    }
  }

  lemma GroupStep(t: string, i: nat, i2: nat, j: nat, next: nat)
    requires i <= |t| && i2 <= |t| && j <= |t| && next <= |t| && Skip(t, i) == i && At(t, i, "(")
    requires GetToken(t, i).next == i2 && (ParseLine(t, i2).Ok? ==> ParseLine(t, i2).pos == j)
    requires Skip(t, j) == j && At(t, j, ")") && GetToken(t, j).next == next && Redirs(t, next).Ok?
    ensures ParseExec(t, i) ==
            if ParseLine(t, i2).Err? then ParseLine(t, i2)
            else Ok(Wrap(ParseLine(t, i2).value, Redirs(t, next).value), Redirs(t, next).pos)
  {
    hide ParseLine, Redirs, Words, GetToken, At, Skip, Wrap;
  }

  /** The end of a pipeline. */
  predicate ChainStop(ts: seq<Tok>, k: nat) {
    k == |ts| || Starts(ts, k, ")&;")
  }

  lemma {:induction false} ChainAt(t: string, ts: seq<Tok>, at: seq<nat>, k: nat, c: Chain)
    requires Spells(t, ts, at) && Has(ts, k, ChainToks(c)) && ChainStop(ts, k + |ChainToks(c)|)
    ensures k + |ChainToks(c)| <= |ts| && at[k] <= |t|
    ensures Gives(t, ParsePipe(t, at[k]), ChainFits(c), ChainMeans(c), at[k + |ChainToks(c)|])
    decreases c, 1
  {
    hide ParseExec, ParsePipe, TokAt, Has, SimpleToks, SimpleMeans, SimpleFits, Gives, Stop;
    HasFits(ts, k, ChainToks(c));
    match c
    case One(s) =>
      ChainStopStops(ts, k + |SimpleToks(s)|);
      SimpleAt(t, ts, at, k, s);
      ChainEnds(t, ts, at, k, s);
    case Bar(s, rest) =>
      var k2 := k + |SimpleToks(s)|;
      HasParts(ts, k, SimpleToks(s), [Op("|")] + ChainToks(rest));
      HasParts(ts, k2, [Op("|")], ChainToks(rest));
      HasOne(ts, k2, Op("|"));
      BarStops(ts, k2);
      SimpleAt(t, ts, at, k, s);
      ChainAt(t, ts, at, k2 + 1, rest);
      ChainGoes(t, ts, at, k, s, rest);
  }

  lemma ChainStopStops(ts: seq<Tok>, k: nat)
    requires ChainStop(ts, k)
    ensures Stop(ts, k) && !Starts(ts, k, "|")
  {
  }

  lemma BarStops(ts: seq<Tok>, k: nat)
    requires k < |ts| && ts[k] == Op("|")
    ensures Stop(ts, k)
  {
  }

  lemma ChainEnds(t: string, ts: seq<Tok>, at: seq<nat>, k: nat, s: Simple)
    requires Spells(t, ts, at) && k + |SimpleToks(s)| <= |ts| && at[k] <= |t| && ChainStop(ts, k + |SimpleToks(s)|)
    requires Gives(t, ParseExec(t, at[k]), SimpleFits(s), SimpleMeans(s), at[k + |SimpleToks(s)|])
    ensures Gives(t, ParsePipe(t, at[k]), SimpleFits(s), SimpleMeans(s), at[k + |SimpleToks(s)|])
  {
    hide ParseExec, ParsePipe, TokAt, SimpleToks, SimpleMeans, SimpleFits, Reading, At, Skip, NoSpace, Starts,
      ChainStop, Stop;
    var k2 := k + |SimpleToks(s)|;
    ChainStopStops(ts, k2);
    Cursor(t, ts, at, k2);
    AtToken(t, ts, at, k2, "|");
    LastStep(t, at[k], at[k2]);
  }

  lemma LastStep(t: string, i: nat, j: nat)
    requires i <= |t| && j <= |t| && (ParseExec(t, i).Ok? ==> ParseExec(t, i).pos == j)
    requires Skip(t, j) == j && !At(t, j, "|")
    ensures ParsePipe(t, i) == ParseExec(t, i)
  {
    hide ParseExec, GetToken, At, Skip;
  }

  lemma ChainGoes(t: string, ts: seq<Tok>, at: seq<nat>, k: nat, s: Simple, rest: Chain)
    requires Spells(t, ts, at) && k + |SimpleToks(s)| < |ts| && ts[k + |SimpleToks(s)|] == Op("|")
    requires at[k] <= |t| && at[k + |SimpleToks(s)| + 1] <= |t| && k + |SimpleToks(s)| + 1 + |ChainToks(rest)| <= |ts|
    requires Gives(t, ParseExec(t, at[k]), SimpleFits(s), SimpleMeans(s), at[k + |SimpleToks(s)|])
    requires Gives(t, ParsePipe(t, at[k + |SimpleToks(s)| + 1]), ChainFits(rest), ChainMeans(rest),
                   at[k + |SimpleToks(s)| + 1 + |ChainToks(rest)|])
    ensures Gives(t, ParsePipe(t, at[k]), SimpleFits(s) && ChainFits(rest), Piped(SimpleMeans(s), ChainMeans(rest)),
                  at[k + |SimpleToks(s)| + 1 + |ChainToks(rest)|])
  {
    hide ParseExec, ParsePipe, TokAt, SimpleToks, SimpleMeans, SimpleFits, ChainToks, ChainMeans, ChainFits, GetToken,
      At, Skip;
    var k2 := k + |SimpleToks(s)|;
    OpHere(t, ts, at, k2, "|");
    BarStep(t, at[k], at[k2], at[k2 + 1]);
  }

  /** The cursor at an operator. */
  lemma OpHere(t: string, ts: seq<Tok>, at: seq<nat>, k: nat, op: string)
    requires Spells(t, ts, at) && k < |ts| && ts[k] == Op(op) && op != "" && op != ">>"
    ensures at[k] <= |t| && Skip(t, at[k]) == at[k] && At(t, at[k], op) && GetToken(t, at[k]).next == at[k + 1] <= |t|
  {
    hide GetToken, Skip;
    Cursor(t, ts, at, k);
    Cursor(t, ts, at, k + 1);
    TokenHere(t, ts, at, k);
  }

  lemma BarStep(t: string, i: nat, j: nat, next: nat)
    requires i <= |t| && j <= |t| && next <= |t| && (ParseExec(t, i).Ok? ==> ParseExec(t, i).pos == j)
    requires Skip(t, j) == j && At(t, j, "|") && GetToken(t, j).next == next
    ensures ParsePipe(t, i) ==
            if ParseExec(t, i).Err? then ParseExec(t, i)
            else
              var right := ParsePipe(t, next);
              if right.Err? then right else Ok(Pipe(ParseExec(t, i).value, right.value), right.pos)
  {
    hide ParseExec, GetToken, At, Skip;
  }

  lemma {:induction false} AmpsAt(t: string, ts: seq<Tok>, at: seq<nat>, k: nat, n: nat, c: Cmd)
    requires Spells(t, ts, at) && Has(ts, k, AmpToks(n)) && !Starts(ts, k + |AmpToks(n)|, "&")
    ensures k + |AmpToks(n)| <= |ts| && at[k] <= |t|
    ensures var (d, e) := Backs(t, at[k], c); e == at[k + |AmpToks(n)|] && Reading(t, d) == Behinds(Reading(t, c), n)
    decreases n
  {
    hide TokAt, Has, GetToken, At, Starts, Skip, Backs;
    HasFits(ts, k, AmpToks(n));
    Cursor(t, ts, at, k);
    if n > 0 {
      HasParts(ts, k, [Op("&")], AmpToks(n - 1));
      HasOne(ts, k, Op("&"));
      OpHere(t, ts, at, k, "&");
      AmpsAt(t, ts, at, k + 1, n - 1, Back(c));
    } else {
      AtToken(t, ts, at, k, "&");
    }
    BacksStep(t, at[k], c);
  }

  lemma BacksStep(t: string, i: nat, c: Cmd)
    requires i <= |t| && Skip(t, i) == i
    ensures Backs(t, i, c) == if At(t, i, "&") then Backs(t, GetToken(t, i).next, Back(c)) else (c, i)
  {
  }

  /** The end of a line. */
  predicate LineStop(ts: seq<Tok>, k: nat) {
    k == |ts| || Starts(ts, k, ")")
  }

  lemma {:induction false} LineAt(t: string, ts: seq<Tok>, at: seq<nat>, k: nat, l: Line)
    requires Spells(t, ts, at) && Has(ts, k, LineToks(l)) && LineStop(ts, k + |LineToks(l)|)
    ensures k + |LineToks(l)| <= |ts| && at[k] <= |t|
    ensures Gives(t, ParseLine(t, at[k]), LineFits(l), LineMeans(l), at[k + |LineToks(l)|])
    decreases l, 2
  {
    hide ParseLine, ParsePipe, TokAt, Has, ChainToks, ChainMeans, ChainFits, AmpToks, LineToks, Gives, ChainStop,
      Behinds, LineStop, Starts;
    HasFits(ts, k, LineToks(l));
    var k2 := k + |ChainToks(l.c)|;
    LinePieces(ts, k, l);
    AmpsStop(ts, k2, l.amps);
    ChainAt(t, ts, at, k, l.c);
    match l
    case Final(c, n) =>
      FinalAt(t, ts, at, k, c, n);
    case Semi(c, n, rest) =>
      LineAt(t, ts, at, k2 + |AmpToks(n)| + 1, rest);
      SemiAt(t, ts, at, k, c, n, rest);
  }

  /** Where the parts of a line stand. */
  lemma LinePieces(ts: seq<Tok>, k: nat, l: Line)
    requires Has(ts, k, LineToks(l))
    ensures var k2 := k + |ChainToks(l.c)|;
            var k3 := k2 + |AmpToks(l.amps)|;
            && Has(ts, k, ChainToks(l.c)) && Has(ts, k2, AmpToks(l.amps)) && k3 <= |ts|
            && (l.Final? ==> |LineToks(l)| == k3 - k)
            && (l.Semi? ==> k3 < |ts| && ts[k3] == Op(";") && Has(ts, k3 + 1, LineToks(l.rest))
                            && |LineToks(l)| == k3 + 1 + |LineToks(l.rest)| - k)
  {
    hide Has, ChainToks, AmpToks;
    HasFits(ts, k, LineToks(l));
    var k2 := k + |ChainToks(l.c)|;
    var k3 := k2 + |AmpToks(l.amps)|;
    match l
    case Final(c, n) =>
      HasParts(ts, k, ChainToks(c), AmpToks(n));
    case Semi(c, n, rest) =>
      HasParts(ts, k, ChainToks(c), AmpToks(n) + ([Op(";")] + LineToks(rest)));
      HasParts(ts, k2, AmpToks(n), [Op(";")] + LineToks(rest));
      HasParts(ts, k3, [Op(";")], LineToks(rest));
      HasOne(ts, k3, Op(";"));
  }

  lemma AmpsStop(ts: seq<Tok>, k: nat, n: nat)
    requires Has(ts, k, AmpToks(n))
    requires LineStop(ts, k + |AmpToks(n)|) || (k + |AmpToks(n)| < |ts| && ts[k + |AmpToks(n)|] == Op(";"))
    ensures ChainStop(ts, k) && !Starts(ts, k + |AmpToks(n)|, "&")
  {
    if n > 0 {
      HasParts(ts, k, [Op("&")], AmpToks(n - 1));
      HasOne(ts, k, Op("&"));
    }
  }

  lemma FinalAt(t: string, ts: seq<Tok>, at: seq<nat>, k: nat, c: Chain, n: nat)
    requires Spells(t, ts, at) && k + |ChainToks(c)| <= |ts| && at[k] <= |t|
    requires Has(ts, k + |ChainToks(c)|, AmpToks(n)) && LineStop(ts, k + |ChainToks(c)| + |AmpToks(n)|)
    requires Gives(t, ParsePipe(t, at[k]), ChainFits(c), ChainMeans(c), at[k + |ChainToks(c)|])
    ensures k + |ChainToks(c)| + |AmpToks(n)| <= |ts|
    ensures Gives(t, ParseLine(t, at[k]), ChainFits(c), Behinds(ChainMeans(c), n),
            at[k + |ChainToks(c)| + |AmpToks(n)|])
  {
    hide ParsePipe, TokAt, Has, ChainToks, ChainMeans, ChainFits, AmpToks, Behinds, Reading, Backs, At, GetToken;
    var k2 := k + |ChainToks(c)|;
    AmpsStop(ts, k2, n);
    HasFits(ts, k2, AmpToks(n));
    AtToken(t, ts, at, k2 + |AmpToks(n)|, ";");
    if ChainFits(c) {
      AmpsAt(t, ts, at, k2, n, ParsePipe(t, at[k]).value);
    }
  }

  lemma SemiAt(t: string, ts: seq<Tok>, at: seq<nat>, k: nat, c: Chain, n: nat, rest: Line)
    requires Spells(t, ts, at) && k + |ChainToks(c)| <= |ts| && at[k] <= |t|
    requires var k3 := k + |ChainToks(c)| + |AmpToks(n)|;
             && Has(ts, k + |ChainToks(c)|, AmpToks(n)) && k3 < |ts| && ts[k3] == Op(";")
             && k3 + 1 + |LineToks(rest)| <= |ts| && at[k3 + 1] <= |t|
             && Gives(t, ParseLine(t, at[k3 + 1]), LineFits(rest), LineMeans(rest), at[k3 + 1 + |LineToks(rest)|])
    requires Gives(t, ParsePipe(t, at[k]), ChainFits(c), ChainMeans(c), at[k + |ChainToks(c)|])
    ensures Gives(t, ParseLine(t, at[k]), ChainFits(c) && LineFits(rest),
                  Then(Behinds(ChainMeans(c), n), LineMeans(rest)),
                  at[k + |ChainToks(c)| + |AmpToks(n)| + 1 + |LineToks(rest)|])
  {
    hide ParsePipe, ParseLine, TokAt, Has, ChainToks, ChainMeans, ChainFits, AmpToks, Behinds, Backs, At, GetToken,
      LineToks, LineMeans, LineFits, Skip, NoSpace, Starts;
    var k2 := k + |ChainToks(c)|;
    var k3 := k2 + |AmpToks(n)|;
    AmpsStop(ts, k2, n);
    Cursor(t, ts, at, k2);
    OpHere(t, ts, at, k3, ";");
    if ChainFits(c) {
      AmpsAt(t, ts, at, k2, n, ParsePipe(t, at[k]).value);
    }
    SemiStep(t, at[k], at[k2], at[k3], at[k3 + 1]);
  }

  lemma SemiStep(t: string, i: nat, i2: nat, j: nat, next: nat)
    requires i <= |t| && i2 <= |t| && j <= |t| && next <= |t|
    requires ParsePipe(t, i).Ok? ==> ParsePipe(t, i).pos == i2 && Backs(t, i2, ParsePipe(t, i).value).1 == j
    requires At(t, j, ";") && GetToken(t, j).next == next
    ensures ParseLine(t, i) ==
            if ParsePipe(t, i).Err? then ParsePipe(t, i)
            else
              var rest := ParseLine(t, next);
              if rest.Err? then rest else Ok(List(Backs(t, i2, ParsePipe(t, i).value).0, rest.value), rest.pos)
  {
    hide ParsePipe, Backs, GetToken, At;
  }

  // ----- whole texts -----

  lemma SkipsFirst(t: string, i: nat)
    requires i <= |t|
    ensures ParseLine(t, i) == ParseLine(t, Skip(t, i))
  {
    var j := Skip(t, i);
    assert Skip(t, j) == j;
    assert ParseExec(t, i) == ParseExec(t, j);
    hide ParseExec, GetToken, Backs;
    assert ParsePipe(t, i) == ParsePipe(t, j);
  }

  /** A text that spells a line, with any white space, is read as what the line means; if a command of it has MAXARGS
      words or more, the parser panics. */
  lemma ReadsLine(t: string, ts: seq<Tok>, at: seq<nat>, l: Line)
    requires Spells(t, ts, at) && ts == LineToks(l)
    ensures var r := ParseCmd(t);
            if LineFits(l) then r.Ok? && Reading(t, r.value) == LineMeans(l) else r == Err(TooManyArgs)
  {
    hide ParseLine, Skip, TokAt, LineToks, LineMeans, LineFits, Reading;
    assert ts[0..0 + |ts|] == ts;
    LineAt(t, ts, at, 0, l);
    Cursor(t, ts, at, 0);
    Cursor(t, ts, at, |ts|);
    SkipTo(t, 0, at[0]);
    SkipsFirst(t, 0);
  }

  // ----- every text has its tokens -----

  lemma ConsTok(t: string, x: Tok, q: nat, ts: seq<Tok>, at: seq<nat>, k: nat)
    requires |at| == |ts| + 1 && k < |ts| && TokAt(t, ts, at, k)
    ensures TokAt(t, [x] + ts, [q] + at, k + 1)
  {
  }

  lemma {:induction false} Lex(t: string, i: nat) returns (ts: seq<Tok>, at: seq<nat>)
    requires i <= |t| && NoSpace(t, i)
    ensures |at| == |ts| + 1 && at[0] == i && at[|ts|] == |t| && forall k :: 0 <= k < |ts| ==> TokAt(t, ts, at, k)
    decreases |t| - i
  {
    hide TokAt, GetToken;
    if i == |t| {
      ts, at := [], [i];
    } else {
      var x, next := LexOne(t, i);
      var ts2, at2 := Lex(t, next);
      ts, at := [x] + ts2, [i] + at2;
      LexFirst(t, i, x, next, ts2, at2);
      forall k | 0 <= k < |ts|
        ensures TokAt(t, ts, at, k)
      {
        if k > 0 {
          ConsTok(t, x, i, ts2, at2, k - 1);
        }
      }
    }
  }

  lemma LexOne(t: string, i: nat) returns (x: Tok, next: nat)
    requires i < |t| && NoSpace(t, i)
    ensures IsTok(x) && i < i + |Spell(x)| <= next <= |t| && t[i..i + |Spell(x)|] == Spell(x) && NoSpace(t, next)
    ensures Blank(t, i + |Spell(x)|, next)
    ensures var e := i + |Spell(x)|;
            e < |t| ==> (x.W? ==> White(t[e]) || Special(t[e])) && (x == Op(">") ==> t[e] != '>')
  {
    hide Skip, WordEnd;
    assert Skip(t, i) == i;
    var g := GetToken(t, i);
    var e := g.span.end;
    next := g.next;
    x := if g.kind.Word? then W(t[i..e]) else Op(t[i..e]);
    Classes(t[i]);
    if e < |t| {
      Classes(t[e]);
    }
    forall k | i <= k < e && g.kind.Word?
      ensures !White(t[k]) && !Special(t[k])
    {
      Classes(t[k]);
    }
    forall k | e <= k < next
      ensures White(t[k])
    {
      Classes(t[k]);
    }
  }

  lemma LexFirst(t: string, i: nat, x: Tok, next: nat, ts: seq<Tok>, at: seq<nat>)
    requires IsTok(x) && i < i + |Spell(x)| <= next <= |t| && t[i..i + |Spell(x)|] == Spell(x)
    requires Blank(t, i + |Spell(x)|, next) && |at| == |ts| + 1 && at[0] == next
    requires var e := i + |Spell(x)|;
             e < |t| ==> (x.W? ==> White(t[e]) || Special(t[e])) && (x == Op(">") ==> t[e] != '>')
    requires |ts| > 0 ==> TokAt(t, ts, at, 0)
    ensures TokAt(t, [x] + ts, [i] + at, 0)
  {
    if |ts| > 0 {
      var s := Spell(ts[0]);
      assert t[next..next + |s|][0] == s[0];
    }
  }

  lemma Tokenized(t: string) returns (ts: seq<Tok>, at: seq<nat>)
    ensures Spells(t, ts, at)
  {
    hide TokAt;
    ts, at := Lex(t, Skip(t, 0));
    forall k | 0 <= k < at[0]
      ensures White(t[k])
    {
      Classes(t[k]);
    }
  }

  // ----- what the parser accepts is a line -----

  lemma HasJoin(ts: seq<Tok>, k: nat, a: seq<Tok>, b: seq<Tok>)
    requires Has(ts, k, a) && Has(ts, k + |a|, b)
    ensures Has(ts, k, a + b)
  {
  }

  lemma HasTok(ts: seq<Tok>, k: nat)
    requires k < |ts|
    ensures Has(ts, k, [ts[k]])
  {
  }

  lemma HasNone(ts: seq<Tok>, k: nat)
    requires k <= |ts|
    ensures Has(ts, k, [])
  {
  }

  /** Which token starts with c. */
  lemma OnlyOp(t: string, ts: seq<Tok>, at: seq<nat>, k: nat, c: char)
    requires Spells(t, ts, at) && Starts(ts, k, [c]) && Special(c) && c != '>'
    ensures ts[k] == Op([c])
  {
    Cursor(t, ts, at, k);
  }

  lemma RedirToken(t: string, ts: seq<Tok>, at: seq<nat>, k: nat) returns (d: Dir)
    requires Spells(t, ts, at) && Starts(ts, k, "<>")
    ensures ts[k] == Op(DirOp(d))
  {
    Cursor(t, ts, at, k);
    assert IsTok(ts[k]);
    d := if ts[k] == Op("<") then Input else if ts[k] == Op(">") then Output else Dir.Append;
  }

  /** A word follows where the parser found one. */
  lemma WordAfter(t: string, ts: seq<Tok>, at: seq<nat>, k: nat)
    requires Spells(t, ts, at) && k <= |ts| && at[k] <= |t| && GetToken(t, at[k]).kind.Word?
    ensures k < |ts| && ts[k].W? && GetToken(t, at[k]).next == at[k + 1] <= |t|
  {
    hide TokAt;
    Cursor(t, ts, at, k);
    if k < |ts| {
      Cursor(t, ts, at, k + 1);
      TokenHere(t, ts, at, k);
    }
  }

  lemma {:induction false} RedirsIs(t: string, ts: seq<Tok>, at: seq<nat>, k: nat) returns (rs: seq<Redirect>)
    requires Spells(t, ts, at) && k <= |ts| && at[k] <= |t| && Redirs(t, at[k]).Ok?
    ensures Has(ts, k, RedsToks(rs)) && k + |RedsToks(rs)| <= |ts| && Redirs(t, at[k]).pos == at[k + |RedsToks(rs)|]
    decreases |ts| - k
  {
    hide TokAt, Has, GetToken, Skip, Redirs, At, Starts, DirOp, RedsToks, KindOf, NoSpace, SpanText, Spell;
    Cursor(t, ts, at, k);
    AtToken(t, ts, at, k, "<>");
    RedirsStep(t, at[k]);
    if Starts(ts, k, "<>") {
      var d := RedirToken(t, ts, at, k);
      StartsIn(ts, k, "<>");
      TokenHere(t, ts, at, k);
      Cursor(t, ts, at, k + 1);
      WordAfter(t, ts, at, k + 1);
      var rest := RedirsIs(t, ts, at, k + 2);
      rs := [Redirect(d, ts[k + 1].w)] + rest;
      RedsCons(ts, k, d, rest);
    } else {
      rs := [];
      NoReds();
      HasNone(ts, k);
    }
  }

  lemma NoReds()
    ensures RedsToks([]) == []
  {
  }

  lemma RedsCons(ts: seq<Tok>, k: nat, d: Dir, rest: seq<Redirect>)
    requires k + 1 < |ts| && ts[k] == Op(DirOp(d)) && ts[k + 1].W? && Has(ts, k + 2, RedsToks(rest))
    ensures var rs := [Redirect(d, ts[k + 1].w)] + rest;
            Has(ts, k, RedsToks(rs)) && |RedsToks(rs)| == 2 + |RedsToks(rest)|
  {
    hide Has;
    var r := Redirect(d, ts[k + 1].w);
    HasTok(ts, k);
    HasTok(ts, k + 1);
    HasJoin(ts, k, [ts[k]], [ts[k + 1]]);
    assert [ts[k]] + [ts[k + 1]] == RedToks(r) && ([r] + rest)[1..] == rest;
    HasJoin(ts, k, RedToks(r), RedsToks(rest));
  }

  lemma StartsIn(ts: seq<Tok>, k: nat, toks: string)
    requires Starts(ts, k, toks)
    ensures k < |ts|
  {
  }

  ghost function AsPieces(rs: seq<Redirect>): (ps: seq<Piece>)
    ensures |ps| == |rs| && forall i :: 0 <= i < |rs| ==> ps[i] == Sent(rs[i])
  {
    seq(|rs|, i requires 0 <= i < |rs| => Sent(rs[i]))
  }

  lemma {:induction false} PiecesOf(rs: seq<Redirect>)
    ensures PiecesToks(AsPieces(rs)) == RedsToks(rs)
    decreases |rs|
  {
    if rs != [] {
      PiecesOf(rs[1..]);
      assert AsPieces(rs)[1..] == AsPieces(rs[1..]);
    }
  }

  lemma {:induction false} WordsIs(t: string, ts: seq<Tok>, at: seq<nat>, k: nat, argv: seq<Span>,
                                   xs: seq<Redirection>) returns (ps: seq<Piece>)
    requires Spells(t, ts, at) && k <= |ts| && at[k] <= |t| && AllTokens(t, argv) && AllTokens(t, Files(xs))
    requires Words(t, at[k], argv, xs).Ok?
    ensures Has(ts, k, PiecesToks(ps)) && k + |PiecesToks(ps)| <= |ts|
    ensures Words(t, at[k], argv, xs).pos == at[k + |PiecesToks(ps)|]
    decreases |ts| - k
  {
    hide TokAt, Has, Redirs, Words, AllTokens, RedsToks, PiecesToks, SpanText, NoSpace, Skip, Files;
    if k < |ts| && ts[k].W? {
      WordStep(t, ts, at, k, argv, xs);
      var rs := RedirsIs(t, ts, at, k + 1);
      var k2 := k + 1 + |RedsToks(rs)|;
      Cursor(t, ts, at, k2);
      var sp, more := Span(at[k], at[k] + |ts[k].w|), Redirs(t, at[k + 1]);
      var rest := WordsIs(t, ts, at, k2, argv + [sp], xs + more.value);
      ps := PiecesCons(ts, k, rs, rest);
    } else {
      WordsQuit(t, ts, at, k, argv, xs);
      ps := [];
      NoPieces(ps);
      HasNone(ts, k);
    }
  }

  /** A word, redirections and further pieces. */
  lemma PiecesCons(ts: seq<Tok>, k: nat, rs: seq<Redirect>, rest: seq<Piece>) returns (ps: seq<Piece>)
    requires k < |ts| && ts[k].W? && Has(ts, k + 1, RedsToks(rs))
    requires Has(ts, k + 1 + |RedsToks(rs)|, PiecesToks(rest))
    ensures Has(ts, k, PiecesToks(ps)) && |PiecesToks(ps)| == 1 + |RedsToks(rs)| + |PiecesToks(rest)|
  {
    hide Has, RedsToks;
    PiecesOf(rs);
    PiecesJoin(AsPieces(rs), rest);
    var tail := AsPieces(rs) + rest;
    ps := [Arg(ts[k].w)] + tail;
    assert ps[1..] == tail;
    HasTok(ts, k);
    HasJoin(ts, k + 1, RedsToks(rs), PiecesToks(rest));
    HasJoin(ts, k, [ts[k]], PiecesToks(tail));
  }

  lemma WordsQuit(t: string, ts: seq<Tok>, at: seq<nat>, k: nat, argv: seq<Span>, xs: seq<Redirection>)
    requires Spells(t, ts, at) && k <= |ts| && at[k] <= |t| && AllTokens(t, argv) && AllTokens(t, Files(xs))
    requires Words(t, at[k], argv, xs).Ok? && (k < |ts| ==> !ts[k].W?)
    ensures Words(t, at[k], argv, xs).pos == at[k]
  {
    hide TokAt, Redirs, AllTokens, Wrap;
    Cursor(t, ts, at, k);
    if k < |ts| {
      TokenHere(t, ts, at, k);
    }
  }

  lemma {:induction false} SimpleIs(t: string, ts: seq<Tok>, at: seq<nat>, k: nat) returns (s: Simple)
    requires Spells(t, ts, at) && k <= |ts| && at[k] <= |t| && ParseExec(t, at[k]).Ok?
    ensures Has(ts, k, SimpleToks(s)) && k + |SimpleToks(s)| <= |ts|
    ensures ParseExec(t, at[k]).pos == at[k + |SimpleToks(s)|]
    decreases |ts| - k, 0
  {
    hide TokAt, Has, GetToken, Skip, Redirs, Words, ParseExec, ParseLine, Wrap, At, Starts, PiecesToks, RedsToks,
         LineToks;
    Cursor(t, ts, at, k);
    AtToken(t, ts, at, k, "(");
    if Starts(ts, k, "(") {
      StartsIn(ts, k, "(");
      OnlyOp(t, ts, at, k, '(');
      OpHere(t, ts, at, k, "(");
      BlockParts(t, at[k]);
      var line := LineIs(t, ts, at, k + 1);
      var k2 := k + 1 + |LineToks(line)|;
      Cursor(t, ts, at, k2);
      AtToken(t, ts, at, k2, ")");
      StartsIn(ts, k2, ")");
      OnlyOp(t, ts, at, k2, ')');
      OpHere(t, ts, at, k2, ")");
      var rs := RedirsIs(t, ts, at, k2 + 1);
      s := Group(line, rs);
      GroupCons(ts, k, LineToks(line), RedsToks(rs));
    } else {
      ExecParts(t, at[k]);
      var rs := RedirsIs(t, ts, at, k);
      var k2 := k + |RedsToks(rs)|;
      Cursor(t, ts, at, k2);
      NoTokens(t);
      var rest := WordsIs(t, ts, at, k2, [], Redirs(t, at[k]).value);
      PiecesOf(rs);
      PiecesJoin(AsPieces(rs), rest);
      HasJoin(ts, k, RedsToks(rs), PiecesToks(rest));
      s := Plain(AsPieces(rs) + rest);
    }
  }

  lemma GroupCons(ts: seq<Tok>, k: nat, a: seq<Tok>, b: seq<Tok>)
    requires k + 1 + |a| < |ts| && ts[k] == Op("(") && Has(ts, k + 1, a) && ts[k + 1 + |a|] == Op(")")
    requires Has(ts, k + 2 + |a|, b)
    ensures Has(ts, k, [Op("(")] + (a + ([Op(")")] + b)))
    ensures |[Op("(")] + (a + ([Op(")")] + b))| == |a| + |b| + 2
  {
    hide Has;
    HasTok(ts, k);
    HasTok(ts, k + 1 + |a|);
    HasJoin(ts, k + 1 + |a|, [Op(")")], b);
    HasJoin(ts, k + 1, a, [Op(")")] + b);
    HasJoin(ts, k, [Op("(")], a + ([Op(")")] + b));
  }

  /** What a block that was accepted consists of. */
  lemma BlockParts(t: string, i: nat)
    requires i <= |t| && Skip(t, i) == i && At(t, i, "(") && ParseExec(t, i).Ok?
    ensures var line := ParseLine(t, GetToken(t, i).next);
            && line.Ok? && At(t, Skip(t, line.pos), ")")
            && var rs := Redirs(t, GetToken(t, Skip(t, line.pos)).next);
               rs.Ok? && ParseExec(t, i).pos == rs.pos
  {
    hide ParseLine, Redirs, Words, GetToken, At, Skip, Wrap;
  }

  lemma ExecParts(t: string, i: nat)
    requires i <= |t| && Skip(t, i) == i && !At(t, i, "(") && ParseExec(t, i).Ok?
    ensures Redirs(t, i).Ok? && AllTokens(t, [])
            && ParseExec(t, i) == Words(t, Redirs(t, i).pos, [], Redirs(t, i).value)
  {
    hide Redirs, Words, At, Skip;
  }

  lemma {:induction false} ChainIs(t: string, ts: seq<Tok>, at: seq<nat>, k: nat) returns (c: Chain)
    requires Spells(t, ts, at) && k <= |ts| && at[k] <= |t| && ParsePipe(t, at[k]).Ok?
    ensures Has(ts, k, ChainToks(c)) && k + |ChainToks(c)| <= |ts|
    ensures ParsePipe(t, at[k]).pos == at[k + |ChainToks(c)|]
    decreases |ts| - k, 1
  {
    hide TokAt, Has, GetToken, Skip, ParseExec, ParsePipe, At, Starts, SimpleToks;
    PipeParts(t, at[k]);
    var s := SimpleIs(t, ts, at, k);
    var k2 := k + |SimpleToks(s)|;
    Cursor(t, ts, at, k2);
    AtToken(t, ts, at, k2, "|");
    if Starts(ts, k2, "|") {
      StartsIn(ts, k2, "|");
      OnlyOp(t, ts, at, k2, '|');
      OpHere(t, ts, at, k2, "|");
      var rest := ChainIs(t, ts, at, k2 + 1);
      c := Bar(s, rest);
      HasTok(ts, k2);
      HasJoin(ts, k2, [Op("|")], ChainToks(rest));
      HasJoin(ts, k, SimpleToks(s), [Op("|")] + ChainToks(rest));
    } else {
      c := One(s);
    }
  }

  lemma PipeParts(t: string, i: nat)
    requires i <= |t| && ParsePipe(t, i).Ok?
    ensures ParseExec(t, i).Ok?
    ensures var j := Skip(t, ParseExec(t, i).pos);
            if At(t, j, "|") then
              var right := ParsePipe(t, GetToken(t, j).next);
              right.Ok? && ParsePipe(t, i).pos == right.pos
            else ParsePipe(t, i).pos == j
  {
    hide ParseExec, GetToken, At, Skip;
  }

  lemma {:induction false} AmpsIs(t: string, ts: seq<Tok>, at: seq<nat>, k: nat, c: Cmd) returns (n: nat)
    requires Spells(t, ts, at) && k <= |ts| && at[k] <= |t|
    ensures Has(ts, k, AmpToks(n)) && k + |AmpToks(n)| <= |ts| && Backs(t, at[k], c).1 == at[k + |AmpToks(n)|]
    decreases |ts| - k
  {
    hide TokAt, Has, GetToken, Skip, At, Starts, Backs;
    Cursor(t, ts, at, k);
    AtToken(t, ts, at, k, "&");
    BacksStep(t, at[k], c);
    if Starts(ts, k, "&") {
      StartsIn(ts, k, "&");
      OnlyOp(t, ts, at, k, '&');
      OpHere(t, ts, at, k, "&");
      var m := AmpsIs(t, ts, at, k + 1, Back(c));
      n := m + 1;
      HasTok(ts, k);
      HasJoin(ts, k, [Op("&")], AmpToks(m));
    } else {
      n := 0;
      HasNone(ts, k);
    }
  }

  lemma {:induction false} LineIs(t: string, ts: seq<Tok>, at: seq<nat>, k: nat) returns (l: Line)
    requires Spells(t, ts, at) && k <= |ts| && at[k] <= |t| && ParseLine(t, at[k]).Ok?
    ensures Has(ts, k, LineToks(l)) && k + |LineToks(l)| <= |ts|
    ensures ParseLine(t, at[k]).pos == at[k + |LineToks(l)|]
    decreases |ts| - k, 2
  {
    hide TokAt, Has, GetToken, Skip, ParsePipe, ParseLine, At, Starts, ChainToks, AmpToks, LineToks, Backs, NoSpace;
    LineParts(t, at[k]);
    var c := ChainIs(t, ts, at, k);
    var k2 := k + |ChainToks(c)|;
    Cursor(t, ts, at, k2);
    var n := AmpsIs(t, ts, at, k2, ParsePipe(t, at[k]).value);
    var k3 := k2 + |AmpToks(n)|;
    Cursor(t, ts, at, k3);
    AtToken(t, ts, at, k3, ";");
    if Starts(ts, k3, ";") {
      StartsIn(ts, k3, ";");
      OnlyOp(t, ts, at, k3, ';');
      OpHere(t, ts, at, k3, ";");
      var rest := LineIs(t, ts, at, k3 + 1);
      l := Semi(c, n, rest);
    } else {
      l := Final(c, n);
    }
    LineCons(ts, k, l);
  }

  lemma LineCons(ts: seq<Tok>, k: nat, l: Line)
    requires var k2 := k + |ChainToks(l.c)|;
             var k3 := k2 + |AmpToks(l.amps)|;
             && Has(ts, k, ChainToks(l.c)) && Has(ts, k2, AmpToks(l.amps))
             && (l.Semi? ==> k3 < |ts| && ts[k3] == Op(";") && Has(ts, k3 + 1, LineToks(l.rest)))
    ensures Has(ts, k, LineToks(l))
    ensures |LineToks(l)| == |ChainToks(l.c)| + |AmpToks(l.amps)| + if l.Semi? then 1 + |LineToks(l.rest)| else 0
  {
    hide Has, ChainToks, AmpToks;
    var k2 := k + |ChainToks(l.c)|;
    var k3 := k2 + |AmpToks(l.amps)|;
    match l
    case Final(c, n) =>
      HasJoin(ts, k, ChainToks(c), AmpToks(n));
    case Semi(c, n, rest) =>
      HasTok(ts, k3);
      HasJoin(ts, k3, [Op(";")], LineToks(rest));
      HasJoin(ts, k2, AmpToks(n), [Op(";")] + LineToks(rest));
      HasJoin(ts, k, ChainToks(c), AmpToks(n) + ([Op(";")] + LineToks(rest)));
  }

  lemma LineParts(t: string, i: nat)
    requires i <= |t| && ParseLine(t, i).Ok?
    ensures ParsePipe(t, i).Ok?
    ensures var (_, j) := Backs(t, ParsePipe(t, i).pos, ParsePipe(t, i).value);
            if At(t, j, ";") then
              var rest := ParseLine(t, GetToken(t, j).next);
              rest.Ok? && ParseLine(t, i).pos == rest.pos
            else ParseLine(t, i).pos == j
  {
    hide ParsePipe, GetToken, At, Backs;
  }

  /** t spells the line l. */
  ghost predicate IsText(t: string, l: Line) {
    exists at :: Spells(t, LineToks(l), at)
  }

  /** The parser accepts exactly the texts of lines whose commands have fewer than MAXARGS words. */
  lemma AcceptsExactly(t: string)
    ensures ParseCmd(t).Ok? <==> exists l :: IsText(t, l) && LineFits(l)
  {
    hide ParseLine, ParseCmd, Spells, LineToks, LineFits;
    if ParseCmd(t).Ok? {
      var ts, at := Tokenized(t);
      var l := AcceptedLine(t, ts, at);
      ReadsLine(t, ts, at, l);
      assert IsText(t, l);
    }
    if l :| IsText(t, l) && LineFits(l) {
      var at :| Spells(t, LineToks(l), at);
      ReadsLine(t, LineToks(l), at, l);
    }
  }

  lemma AcceptedLine(t: string, ts: seq<Tok>, at: seq<nat>) returns (l: Line)
    requires Spells(t, ts, at) && ParseCmd(t).Ok?
    ensures ts == LineToks(l)
  {
    hide ParseLine, Skip, TokAt, LineToks;
    Cursor(t, ts, at, 0);
    SkipTo(t, 0, at[0]);
    SkipsFirst(t, 0);
    l := LineIs(t, ts, at, 0);
    var k := |LineToks(l)|;
    Cursor(t, ts, at, k);
    assert k == |ts| && ts[0..0 + k] == ts;
  }

  /** Two lines that one text spells mean the same. */
  lemma OneMeaning(t: string, l: Line, m: Line)
    requires IsText(t, l) && IsText(t, m) && LineFits(l)
    ensures LineFits(m) && LineMeans(l) == LineMeans(m)
  {
    hide ParseCmd, Spells, LineToks, LineFits, LineMeans, Reading;
    var at :| Spells(t, LineToks(l), at);
    var bt :| Spells(t, LineToks(m), bt);
    ReadsLine(t, LineToks(l), at, l);
    ReadsLine(t, LineToks(m), bt, m);
  }
}
