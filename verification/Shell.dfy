/** sh.c: the recursive-descent parser, as functions of the text and a position. */
module ShellGrammar {

  const MAXARGS := 10

  /** A token's place in the input: characters start up to but not including end. */
  datatype Span = Span(start: nat, end: nat)

  /** out: the file is opened for writing as descriptor 1 (for '>' and for ">>" alike), otherwise for reading as 0. */
  datatype Redirection = Redirection(file: Span, out: bool)

  datatype Cmd =
    | Exec(argv: seq<Span>)
    | Redir(cmd: Cmd, to: Redirection)
    | Pipe(left: Cmd, right: Cmd)
    | List(left: Cmd, right: Cmd)
    | Back(cmd: Cmd)

  datatype Panic = MissingFile | NotABlock | MissingParen | Syntax | TooManyArgs | Leftovers

  datatype Parsed<T> = Ok(value: T, pos: nat) | Err(panic: Panic)

  predicate IsSpace(c: char) {
    c in " \t\r\n\U{000B}"
  }

  predicate IsSymbol(c: char) {
    c in "<|>&;()"
  }

  predicate InWord(c: char) {
    !IsSpace(c) && !IsSymbol(c)
  }

  // ----- tokens -----

  /** First position from i on that is not a space. */
  function Skip(t: string, i: nat): (j: nat)
    requires i <= |t|
    ensures i <= j <= |t| && (j < |t| ==> !IsSpace(t[j]))
    ensures forall k :: i <= k < j ==> IsSpace(t[k])
    decreases |t| - i
  {
    if i < |t| && IsSpace(t[i]) then Skip(t, i + 1) else i
  }

  /** First position from i on that is not part of a word. */
  function WordEnd(t: string, i: nat): (j: nat)
    requires i <= |t|
    ensures i <= j <= |t| && (j < |t| ==> !InWord(t[j]))
    ensures forall k :: i <= k < j ==> InWord(t[k])
    decreases |t| - i
  {
    if i < |t| && InWord(t[i]) then WordEnd(t, i + 1) else i
  }

  datatype Kind = End | Symbol(c: char) | Append | Word

  datatype Token = Token(kind: Kind, span: Span, next: nat)

  function GetToken(t: string, i: nat): (r: Token)
    requires i <= |t|
    ensures i <= r.span.start <= r.span.end <= r.next <= |t|
    ensures r.kind.End? <==> r.span.start == |t|
    ensures r.kind.End? || r.span.start < r.span.end
    ensures r.kind.Word? ==> IsToken(t, r.span)
  {
    var q := Skip(t, i);
    if q == |t| then Token(End, Span(q, q), q)
    else if t[q] == '>' then
      if q + 1 < |t| && t[q + 1] == '>' then Token(Append, Span(q, q + 2), Skip(t, q + 2))
      else Token(Symbol('>'), Span(q, q + 1), Skip(t, q + 1))
    else if IsSymbol(t[q]) then Token(Symbol(t[q]), Span(q, q + 1), Skip(t, q + 1))
    else
      var e := WordEnd(t, q);
      Token(Word, Span(q, e), Skip(t, e))
  }

  predicate At(t: string, i: nat, toks: string)
    requires i <= |t|
  {
    i < |t| && t[i] in toks
  }

  /** A stored span is a whole word: it cannot be extended on the right. */
  ghost predicate IsToken(t: string, s: Span) {
    && s.start < s.end <= |t| && (forall k :: s.start <= k < s.end ==> InWord(t[k]))
    && (s.end < |t| ==> !InWord(t[s.end]))
  }

  ghost predicate AllTokens(t: string, ss: seq<Span>) {
    forall i :: 0 <= i < |ss| ==> IsToken(t, ss[i])
  }

  /** All words and file names that a command refers to. */
  function Spans(c: Cmd): (ss: seq<Span>) {
    match c
    case Exec(argv) => argv
    case Redir(d, to) => Spans(d) + [to.file]
    case Pipe(l, r) => Spans(l) + Spans(r)
    case List(l, r) => Spans(l) + Spans(r)
    case Back(d) => Spans(d)
  }

  function Files(rs: seq<Redirection>): (ss: seq<Span>) {
    seq(|rs|, i requires 0 <= i < |rs| => rs[i].file)
  }

  // ----- the grammar -----

  lemma FilesCons(t: string, first: Redirection, rest: seq<Redirection>)
    requires IsToken(t, first.file) && AllTokens(t, Files(rest))
    ensures AllTokens(t, Files([first] + rest))
  {
    hide IsToken;
    assert Files([first] + rest) == [first.file] + Files(rest);
  }

  /** parseredirs: the redirections from i on, in order. */
  function Redirs(t: string, i: nat): (r: Parsed<seq<Redirection>>)
    requires i <= |t|
    ensures r.Ok? ==> i <= r.pos <= |t| && AllTokens(t, Files(r.value))
    ensures r.Err? ==> r.panic == MissingFile
    decreases |t| - i
  {
    var j := Skip(t, i);
    if At(t, j, "<>") then
      var op := GetToken(t, j);
      var name := GetToken(t, op.next);
      if !name.kind.Word? then Err(MissingFile)
      else
        var rest := Redirs(t, name.next);
        if rest.Err? then rest
        else
          var first := Redirection(name.span, op.kind != Symbol('<'));
          FilesCons(t, first, rest.value);
          Ok([first] + rest.value, rest.pos)
    else Ok([], j)
  }

  /** A parse result with rs read before it. */
  ghost function Preceded(rs: seq<Redirection>, r: Parsed<seq<Redirection>>): (x: Parsed<seq<Redirection>>) {
    if r.Err? then r else Ok(rs + r.value, r.pos)
  }

  /** One unfolding of Redirs. */
  lemma RedirsStep(t: string, i: nat)
    requires i <= |t|
    ensures var j := Skip(t, i);
            Redirs(t, i) ==
            if !At(t, j, "<>") then Ok([], j)
            else
              var op := GetToken(t, j);
              var name := GetToken(t, op.next);
              if !name.kind.Word? then Err(MissingFile)
              else Preceded([Redirection(name.span, op.kind != Symbol('<'))], Redirs(t, name.next))
    ensures var j := Skip(t, i); At(t, j, "<>") ==> i < GetToken(t, GetToken(t, j).next).next
  {
  }

  function Wrap(c: Cmd, rs: seq<Redirection>): (r: Cmd)
    decreases |rs|
  {
    if rs == [] then c else Wrap(Redir(c, rs[0]), rs[1..])
  }

  lemma {:induction false} WrapTokens(t: string, c: Cmd, rs: seq<Redirection>)
    requires AllTokens(t, Spans(c)) && AllTokens(t, Files(rs))
    ensures AllTokens(t, Spans(Wrap(c, rs)))
    decreases |rs|
  {
    if rs != [] {
      assert Files(rs)[0] == rs[0].file;
      assert forall i :: 0 <= i < |rs[1..]| ==> Files(rs[1..])[i] == Files(rs)[i + 1];
      WrapTokens(t, Redir(c, rs[0]), rs[1..]);
    }
  }

  lemma TokensJoin(t: string, argv: seq<Span>, w: Span, rs: seq<Redirection>, more: seq<Redirection>)
    requires AllTokens(t, argv) && IsToken(t, w) && AllTokens(t, Files(rs)) && AllTokens(t, Files(more))
    ensures AllTokens(t, argv + [w]) && AllTokens(t, Files(rs + more))
  {
    hide IsToken;
    assert Files(rs + more) == Files(rs) + Files(more);
  }

  /** The word loop of parseexec. */
  function Words(t: string, i: nat, argv: seq<Span>, rs: seq<Redirection>): (r: Parsed<Cmd>)
    requires i <= |t|
    requires AllTokens(t, argv) && AllTokens(t, Files(rs))
    ensures r.Ok? ==> i <= r.pos <= |t| && AllTokens(t, Spans(r.value))
    ensures r.Err? ==> r.panic != NotABlock
    decreases |t| - i
  {
    var j := Skip(t, i);
    WrapTokens(t, Exec(argv), rs);
    if At(t, j, "|)&;") then Ok(Wrap(Exec(argv), rs), j)
    else
      var w := GetToken(t, j);
      if w.kind.End? then Ok(Wrap(Exec(argv), rs), w.next)
      else if !w.kind.Word? then Err(Syntax)
      else if |argv| + 1 >= MAXARGS then Err(TooManyArgs)
      else
        var more := Redirs(t, w.next);
        if more.Err? then Err(more.panic)
        else
          TokensJoin(t, argv, w.span, rs, more.value);
          Words(t, more.pos, argv + [w.span], rs + more.value)
  }

  function ParseExec(t: string, i: nat): (r: Parsed<Cmd>)
    requires i <= |t|
    ensures r.Ok? ==> i <= r.pos <= |t| && AllTokens(t, Spans(r.value))
    ensures r.Err? ==> r.panic != NotABlock
    decreases |t| - i, 1
  {
    var j := Skip(t, i);
    if At(t, j, "(") then ParseBlock(t, j)
    else
      var rs := Redirs(t, j);
      if rs.Err? then Err(rs.panic) else Words(t, rs.pos, [], rs.value)
  }

  function ParseBlock(t: string, i: nat): (r: Parsed<Cmd>)
    requires i <= |t|
    ensures r.Ok? ==> i <= r.pos <= |t| && AllTokens(t, Spans(r.value))
    ensures r.Err? && r.panic == NotABlock ==> !At(t, Skip(t, i), "(")
    decreases |t| - i, 0
  {
    var j := Skip(t, i);
    if !At(t, j, "(") then Err(NotABlock)
    else
      var line := ParseLine(t, GetToken(t, j).next);
      if line.Err? then line
      else
        var k := Skip(t, line.pos);
        if !At(t, k, ")") then Err(MissingParen)
        else
          var rs := Redirs(t, GetToken(t, k).next);
          if rs.Err? then Err(rs.panic)
          else
            WrapTokens(t, line.value, rs.value);
            Ok(Wrap(line.value, rs.value), rs.pos)
  }

  function ParsePipe(t: string, i: nat): (r: Parsed<Cmd>)
    requires i <= |t|
    ensures r.Ok? ==> i <= r.pos <= |t| && AllTokens(t, Spans(r.value))
    ensures r.Err? ==> r.panic != NotABlock
    decreases |t| - i, 2
  {
    var left := ParseExec(t, i);
    if left.Err? then left
    else
      var j := Skip(t, left.pos);
      if !At(t, j, "|") then Ok(left.value, j)
      else
        var right := ParsePipe(t, GetToken(t, j).next);
        if right.Err? then right else Ok(Pipe(left.value, right.value), right.pos)
  }

  /** The '&' loop of parseline. */
  function Backs(t: string, i: nat, c: Cmd): (r: (Cmd, nat))
    requires i <= |t|
    ensures i <= r.1 <= |t| && Spans(r.0) == Spans(c) && (r.1 < |t| ==> !IsSpace(t[r.1]))
    decreases |t| - i
  {
    var j := Skip(t, i);
    if At(t, j, "&") then Backs(t, GetToken(t, j).next, Back(c)) else (c, j)
  }

  function ParseLine(t: string, i: nat): (r: Parsed<Cmd>)
    requires i <= |t|
    ensures r.Ok? ==> i <= r.pos <= |t| && AllTokens(t, Spans(r.value))
    ensures r.Err? ==> r.panic != NotABlock
    decreases |t| - i, 3
  {
    var first := ParsePipe(t, i);
    if first.Err? then first
    else
      var (c, j) := Backs(t, first.pos, first.value);
      if !At(t, j, ";") then Ok(c, j)
      else
        var rest := ParseLine(t, GetToken(t, j).next);
        if rest.Err? then rest else Ok(List(c, rest.value), rest.pos)
  }

  /** parsecmd before nulterminate. Every word and file name in the result is a whole token of the input, and the
      panic of parseblock is never reached. */
  function ParseCmd(t: string): (r: Parsed<Cmd>)
    ensures r.Ok? ==> r.pos == |t| && AllTokens(t, Spans(r.value))
    ensures r.Err? ==> r.panic != NotABlock
  {
    var r := ParseLine(t, 0);
    if r.Err? then r
    else
      var j := Skip(t, r.pos);
      if j != |t| then Err(Leftovers) else Ok(r.value, j)
  }
}
