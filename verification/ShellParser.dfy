/** sh.c: the parser that moves a cursor over the input buffer, and nulterminate, which writes into it. */
module ShellParser {
  import opened ShellGrammar

  class Parser {
    const buf: array<char>
    const es: nat
    var s: nat

    constructor (b: array<char>, n: nat)
      requires n < b.Length && b[n] == '\0' && forall k :: 0 <= k < n ==> b[k] != '\0'
      ensures Valid() && buf == b && es == n && s == 0
    {
      buf, es, s := b, n, 0;
    }

    ghost predicate Valid()
      reads this, buf
    {
      s <= es < buf.Length && buf[es] == '\0' && forall k :: 0 <= k < es ==> buf[k] != '\0'
    }

    ghost function Text(): (t: string)
      requires Valid()
      reads this, buf
    {
      buf[..es]
    }

    method SkipSpaces()
      requires Valid()
      modifies this`s
      ensures Valid() && s == Skip(Text(), old(s))
    {
      while s < es && IsSpace(buf[s])
        invariant Valid() && Skip(Text(), s) == Skip(Text(), old(s))
      {
        s := s + 1;
      }
    }

    method SkipWord()
      requires Valid()
      modifies this`s
      ensures Valid() && s == WordEnd(Text(), old(s))
    {
      while s < es && !IsSpace(buf[s]) && !IsSymbol(buf[s])
        invariant Valid() && WordEnd(Text(), s) == WordEnd(Text(), old(s))
      {
        s := s + 1;
      }
    }

    method NextToken() returns (kind: Kind, q: nat, eq: nat)
      requires Valid()
      modifies this`s
      ensures Valid() && GetToken(Text(), old(s)) == Token(kind, Span(q, eq), s)
    {
      SkipSpaces();
      q := s;
      var c := buf[s];
      if c == '\0' {
        kind := End;
      } else if c == '>' {
        s := s + 1;
        kind := Symbol('>');
        if buf[s] == '>' {
          kind := Append;
          s := s + 1;
        }
      } else if IsSymbol(c) {
        s := s + 1;
        kind := Symbol(c);
      } else {
        kind := Word;
        SkipWord();
      }
      eq := s;
      SkipSpaces();
    }

    method Peek(toks: string) returns (found: bool)
      requires Valid() && '\0' !in toks
      modifies this`s
      ensures Valid() && s == Skip(Text(), old(s)) && found == At(Text(), s, toks)
    {
      SkipSpaces();
      return buf[s] != '\0' && buf[s] in toks;
    }

    method Redirections() returns (r: Parsed<seq<Redirection>>)
      requires Valid()
      modifies this`s
      ensures Valid() && r == Redirs(Text(), old(s)) && (r.Ok? ==> s == r.pos)
    {
      hide Skip, GetToken, AllTokens, Redirs;
      var rs: seq<Redirection> := [];
      PrecededNone(Redirs(Text(), s));
      while true
        invariant Valid() && Redirs(Text(), old(s)) == Preceded(rs, Redirs(Text(), s))
        decreases es - s
      {
        RedirsStep(Text(), s);
        var more := Peek("<>");
        if !more {
          assert rs + [] == rs;
          return Ok(rs, s);
        }
        var op, _, _ := NextToken();
        var kind, q, eq := NextToken();
        if !kind.Word? {
          return Err(MissingFile);
        }
        var first := Redirection(Span(q, eq), op != Symbol('<'));
        PrecededTwice(rs, first, Redirs(Text(), s));
        rs := rs + [first];
      }
    }

    method LoopWords(argv0: seq<Span>, rs0: seq<Redirection>) returns (r: Parsed<Cmd>)
      requires Valid() && AllTokens(Text(), argv0) && AllTokens(Text(), Files(rs0))
      modifies this`s
      ensures Valid() && r == Words(Text(), old(s), argv0, rs0) && (r.Ok? ==> s == r.pos)
    {
      hide Skip, GetToken, Redirs, AllTokens, IsToken;
      var argv, rs := argv0, rs0;
      while true
        invariant Valid() && AllTokens(Text(), argv) && AllTokens(Text(), Files(rs))
        invariant Words(Text(), s, argv, rs) == Words(Text(), old(s), argv0, rs0)
        decreases es - s
      {
        var stop := Peek("|)&;");
        if stop {
          return Ok(Wrap(Exec(argv), rs), s);
        }
        var kind, q, eq := NextToken();
        if kind.End? {
          return Ok(Wrap(Exec(argv), rs), s);
        }
        if !kind.Word? {
          return Err(Syntax);
        }
        if |argv| + 1 >= MAXARGS {
          return Err(TooManyArgs);
        }
        var more := Redirections();
        if more.Err? {
          return Err(more.panic);
        }
        TokensJoin(Text(), argv, Span(q, eq), rs, more.value);
        argv, rs := argv + [Span(q, eq)], rs + more.value;
      }
    }

    method Execs() returns (r: Parsed<Cmd>)
      requires Valid()
      modifies this`s
      ensures Valid() && r == ParseExec(Text(), old(s)) && (r.Ok? ==> s == r.pos)
      decreases es - s, 1
    {
      hide Skip, GetToken, Redirs, Words, ParseBlock, IsToken;
      var block := Peek("(");
      if block {
        r := Block();
        return;
      }
      var rs := Redirections();
      if rs.Err? {
        return Err(rs.panic);
      }
      r := LoopWords([], rs.value);
    }

    method Block() returns (r: Parsed<Cmd>)
      requires Valid()
      modifies this`s
      ensures Valid() && r == ParseBlock(Text(), old(s)) && (r.Ok? ==> s == r.pos)
      decreases es - s, 0
    {
      hide Skip, GetToken, Redirs, ParseLine, AllTokens;
      var open := Peek("(");
      if !open {
        return Err(NotABlock);
      }
      var _, _, _ := NextToken();
      var line := Line();
      if line.Err? {
        return line;
      }
      var close := Peek(")");
      if !close {
        return Err(MissingParen);
      }
      var _, _, _ := NextToken();
      var rs := Redirections();
      if rs.Err? {
        return Err(rs.panic);
      }
      return Ok(Wrap(line.value, rs.value), s);
    }

    method Pipeline() returns (r: Parsed<Cmd>)
      requires Valid()
      modifies this`s
      ensures Valid() && r == ParsePipe(Text(), old(s)) && (r.Ok? ==> s == r.pos)
      decreases es - s, 2
    {
      hide Skip, GetToken, ParseExec, AllTokens;
      var left := Execs();
      if left.Err? {
        return left;
      }
      var more := Peek("|");
      if !more {
        return Ok(left.value, s);
      }
      var _, _, _ := NextToken();
      var right := Pipeline();
      if right.Err? {
        return right;
      }
      return Ok(Pipe(left.value, right.value), s);
    }

    method Line() returns (r: Parsed<Cmd>)
      requires Valid()
      modifies this`s
      ensures Valid() && r == ParseLine(Text(), old(s)) && (r.Ok? ==> s == r.pos)
      decreases es - s, 3
    {
      hide Skip, GetToken, ParsePipe, AllTokens;
      var first := Pipeline();
      if first.Err? {
        return first;
      }
      ghost var i := s;
      var c := first.value;
      var back := Peek("&");
      while back
        invariant Valid() && i <= s && back == At(Text(), s, "&") && Skip(Text(), s) == s
        invariant Backs(Text(), i, first.value) == Backs(Text(), s, c)
        decreases es - s
      {
        var _, _, _ := NextToken();
        c := Back(c);
        back := Peek("&");
      }
      var more := Peek(";");
      if !more {
        return Ok(c, s);
      }
      var _, _, _ := NextToken();
      var rest := Line();
      if rest.Err? {
        return rest;
      }
      return Ok(List(c, rest.value), s);
    }

    method Command() returns (r: Parsed<Cmd>)
      requires Valid() && s == 0
      modifies this`s
      ensures Valid() && r == ParseCmd(Text())
    {
      hide Skip, ParseLine, AllTokens;
      var line := Line();
      if line.Err? {
        return line;
      }
      var _ := Peek("");
      if s != es {
        return Err(Leftovers);
      }
      return Ok(line.value, s);
    }

    method TerminateWords(argv: seq<Span>)
      requires EndsBelow(argv, buf.Length)
      modifies buf
      ensures buf[..] == Cut(old(buf[..]), argv)
    {
      for i := 0 to |argv|
        invariant buf[..] == Cut(old(buf[..]), argv[..i])
      {
        CutMore(old(buf[..]), argv[..i], [argv[i]]);
        assert argv[..i] + [argv[i]] == argv[..i + 1];
        buf[argv[i].end] := '\0';
      }
      assert argv[..|argv|] == argv;
    }

    method Nulterminate(c: Cmd)
      requires EndsBelow(Spans(c), buf.Length)
      modifies buf
      ensures buf[..] == Cut(old(buf[..]), Spans(c))
      decreases c
    {
      ghost var b := buf[..];
      match c
      case Exec(argv) =>
        TerminateWords(argv);
      case Redir(d, to) =>
        EndsBelowParts(Spans(d), [to.file], buf.Length);
        assert [to.file][0].end < buf.Length;
        Nulterminate(d);
        buf[to.file.end] := '\0';
        CutMore(b, Spans(d), [to.file]);
      case Pipe(l, r) =>
        EndsBelowParts(Spans(l), Spans(r), buf.Length);
        Nulterminate(l);
        Nulterminate(r);
        CutMore(b, Spans(l), Spans(r));
      case List(l, r) =>
        EndsBelowParts(Spans(l), Spans(r), buf.Length);
        Nulterminate(l);
        Nulterminate(r);
        CutMore(b, Spans(l), Spans(r));
      case Back(d) =>
        Nulterminate(d);
    }

    /** parsecmd: after it, every word and file name of the command reads, up to its terminator, as the token it was. */
    method ParseAndTerminate() returns (r: Parsed<Cmd>)
      requires Valid() && s == 0
      modifies this`s, buf
      ensures r == ParseCmd(old(Text()))
      ensures r.Ok? ==> forall i :: 0 <= i < |Spans(r.value)| ==>
                var sp := Spans(r.value)[i];
                sp.start <= sp.end <= es && CString(buf[..], sp.start) == old(Text())[sp.start..sp.end]
    {
      ghost var t, b := Text(), buf[..];
      r := Command();
      if r.Ok? {
        assert forall i :: 0 <= i < |Spans(r.value)| ==> IsToken(t, Spans(r.value)[i]);
        Nulterminate(r.value);
        forall i | 0 <= i < |Spans(r.value)|
          ensures CString(buf[..], Spans(r.value)[i].start) == t[Spans(r.value)[i].start..Spans(r.value)[i].end]
        {
          ReadsBack(t, b, Spans(r.value), i);
        }
      }
    }
  }

  ghost predicate EndsAt(ss: seq<Span>, k: nat) {
    exists i :: 0 <= i < |ss| && ss[i].end == k
  }

  /** b with a terminator at the end of every span. */
  ghost function Cut(b: seq<char>, ss: seq<Span>): (r: seq<char>)
    ensures |r| == |b|
  {
    seq(|b|, k requires 0 <= k < |b| => if EndsAt(ss, k) then '\0' else b[k])
  }

  lemma CutMore(b: seq<char>, ss: seq<Span>, more: seq<Span>)
    ensures Cut(Cut(b, ss), more) == Cut(b, ss + more)
  {
    forall k | 0 <= k < |b|
      ensures EndsAt(ss + more, k) <==> EndsAt(ss, k) || EndsAt(more, k)
    {
      if EndsAt(ss, k) {
        var i :| 0 <= i < |ss| && ss[i].end == k;
        assert (ss + more)[i].end == k;
      }
      if EndsAt(more, k) {
        var i :| 0 <= i < |more| && more[i].end == k;
        assert (ss + more)[|ss| + i].end == k;
      }
    }
  }

  ghost predicate EndsBelow(ss: seq<Span>, n: nat) {
    forall i :: 0 <= i < |ss| ==> ss[i].end < n
  }

  lemma EndsBelowParts(a: seq<Span>, b: seq<Span>, n: nat)
    requires EndsBelow(a + b, n)
    ensures EndsBelow(a, n) && EndsBelow(b, n)
  {
    assert forall i :: 0 <= i < |a| ==> (a + b)[i] == a[i];
    forall i | 0 <= i < |b|
      ensures b[i].end < n
    {
      assert (a + b)[|a| + i] == b[i];
    }
  }

  /** The C string at q. */
  function CString(b: seq<char>, q: nat): (w: string)
    decreases |b| - q
  {
    if q >= |b| || b[q] == '\0' then "" else [b[q]] + CString(b, q + 1)
  }

  lemma {:induction false} CStringIs(b: seq<char>, q: nat, e: nat)
    requires q <= e < |b| && b[e] == '\0' && forall k :: q <= k < e ==> b[k] != '\0'
    ensures CString(b, q) == b[q..e]
    decreases e - q
  {
    if q < e {
      CStringIs(b, q + 1, e);
    }
  }

  /** No token's end falls inside another token, so the terminators cut each token exactly at its end. */
  lemma ReadsBack(t: string, b: seq<char>, ss: seq<Span>, i: nat)
    requires AllTokens(t, ss) && i < |ss| && '\0' !in t && |b| > |t| && b[..|t|] == t
    ensures CString(Cut(b, ss), ss[i].start) == t[ss[i].start..ss[i].end]
  {
    var q, e, r := ss[i].start, ss[i].end, Cut(b, ss);
    assert IsToken(t, ss[i]) && EndsAt(ss, e);
    forall k | q <= k < e
      ensures r[k] == t[k] && r[k] != '\0'
    {
      assert b[..|t|][k] == t[k];
      forall j | 0 <= j < |ss|
        ensures ss[j].end != k
      {
        assert IsToken(t, ss[j]);
      }
    }
    CStringIs(r, q, e);
  }

  lemma PrecededNone(r: Parsed<seq<Redirection>>)
    ensures Preceded([], r) == r
  {
    if r.Ok? {
      assert [] + r.value == r.value;
    }
  }

  lemma PrecededTwice(rs: seq<Redirection>, first: Redirection, r: Parsed<seq<Redirection>>)
    ensures Preceded(rs, Preceded([first], r)) == Preceded(rs + [first], r)
  {
    if r.Ok? {
      assert rs + ([first] + r.value) == rs + [first] + r.value;
    }
  }
}
