/** The loops of sh.c's parser, proved to compute the functions of module Shell, and
    nulterminate, proved to leave every word of the command readable in place. */
module ShellCode {
  import opened Shell
  import opened ShellPrint

  // ----- the parser's loops

  method SkipSpaces(s: string, i: nat) returns (j: nat)
    requires i <= |s|
    ensures j == Skip(s, i)
  {
    j := i;
    while j < |s| && IsSpace(s[j])
      invariant i <= j <= |s| && Skip(s, i) == Skip(s, j)
    {
      j := j + 1;
    }
  }

  method GetTokenAt(s: string, i: nat) returns (r: Lexed)
    requires i <= |s|
    ensures r == GetToken(s, i)
  {
    var q := SkipSpaces(s, i);
    if q == |s| {
      return Lexed(End, Span(q, q), q);
    }
    var p, tok := q, Word;
    if IsSymbol(s[q]) {
      tok := Symbol(s[q]);
      p := p + 1;
      if s[q] == '>' && p < |s| && s[p] == '>' {
        tok := Append;
        p := p + 1;
      }
    } else {
      while p < |s| && !IsSpace(s[p]) && !IsSymbol(s[p])
        invariant q <= p <= |s| && WordEnd(s, q) == WordEnd(s, p)
      {
        p := p + 1;
      }
    }
    var next := SkipSpaces(s, p);
    r := Lexed(tok, Span(q, p), next);
  }

  /** peek: also moves the position past white space. */
  method PeekAt(s: string, i: nat, toks: set<char>) returns (yes: bool, j: nat)
    requires i <= |s|
    ensures yes == Peek(s, i, toks) && j == Skip(s, i)
  {
    j := SkipSpaces(s, i);
    yes := j < |s| && s[j] in toks;
  }

  lemma SkipTwice(s: string, i: nat)
    requires i <= |s|
    ensures Skip(s, Skip(s, i)) == Skip(s, i)
    ensures GetToken(s, Skip(s, i)) == GetToken(s, i)
    ensures forall toks :: Peek(s, Skip(s, i), toks) == Peek(s, i, toks)
  {
  }

  function Prepend(acc: seq<Redirection>, r: Result<seq<Redirection>>): Result<seq<Redirection>> {
    if r.Panic? then Panic else Ok(acc + r.value, r.pos)
  }

  lemma PrependNone(r: Result<seq<Redirection>>)
    ensures Prepend([], r) == r
  {
    if r.Ok? { assert [] + r.value == r.value; }
  }

  lemma PrependOne(acc: seq<Redirection>, one: Redirection, rest: seq<Redirection>)
    ensures acc + ([one] + rest) == acc + [one] + rest
  {
  }

  method ParseRedirsAt(s: string, i: nat) returns (r: Result<seq<Redirection>>)
    requires i <= |s|
    ensures r == ParseRedirs(s, i)
  {
    var acc: seq<Redirection> := [];
    var yes, p := PeekAt(s, i, {'<', '>'});
    SkipTwice(s, i);
    RedirsSkip(s, i);
    PrependNone(ParseRedirs(s, p));
    while yes
      invariant i <= p <= |s| && Skip(s, p) == p && yes == Peek(s, p, {'<', '>'})
      invariant ParseRedirs(s, i) == Prepend(acc, ParseRedirs(s, p))
      decreases |s| - p
    {
      var op := GetTokenAt(s, p);
      var file := GetTokenAt(s, op.next);
      if !file.tok.Word? {
        return Panic;
      }
      ghost var rest := ParseRedirs(s, file.next);
      var one := Redirection(file.span, op.tok != Symbol('<'));
      if rest.Ok? { PrependOne(acc, one, rest.value); }
      acc := acc + [one];
      RedirsSkip(s, file.next);
      SkipTwice(s, file.next);
      yes, p := PeekAt(s, file.next, {'<', '>'});
    }
    assert acc + [] == acc;
    r := Ok(acc, p);
  }

  lemma RedirsSkip(s: string, i: nat)
    requires i <= |s|
    ensures ParseRedirs(s, Skip(s, i)) == ParseRedirs(s, i)
  {
    SkipTwice(s, i);
  }

  lemma ArgsSkip(s: string, i: nat, argv: seq<Span>, rs: seq<Redirection>)
    requires i <= |s|
    ensures ParseArgs(s, Skip(s, i), argv, rs) == ParseArgs(s, i, argv, rs)
  {
    SkipTwice(s, i);
  }

  method ParseExecAt(s: string, i: nat) returns (r: Result<Cmd>)
    requires i <= |s|
    ensures r == ParseExec(s, i)
    decreases |s| - i, 1
  {
    SkipTwice(s, i);
    var block, p := PeekAt(s, i, {'('});
    if block {
      r := ParseBlockAt(s, i);
      return;
    }
    var rds := ParseRedirsAt(s, p);
    if rds.Panic? {
      return Panic;
    }
    r := ParseArgsAt(s, rds.pos, rds.value);
  }

  /** The argument loop of parseexec, from the first argument on. */
  method ParseArgsAt(s: string, i: nat, first: seq<Redirection>) returns (r: Result<Cmd>)
    requires i <= |s|
    ensures r == ParseArgs(s, i, [], first)
  {
    var argv: seq<Span>, rs := [], first;
    var stop, p := PeekAt(s, i, {'|', ')', '&', ';'});
    SkipTwice(s, i);
    ArgsSkip(s, i, argv, rs);
    while !stop
      invariant i <= p <= |s| && Skip(s, p) == p && stop == Peek(s, p, {'|', ')', '&', ';'}) && |argv| < MAXARGS
      invariant ParseArgs(s, i, [], first) == ParseArgs(s, p, argv, rs)
      decreases |s| - p
    {
      var arg := GetTokenAt(s, p);
      if arg.tok.End? {
        return Ok(Wrap(Exec(argv), rs), arg.next);
      }
      if !arg.tok.Word? {
        return Panic;
      }
      if |argv| + 1 >= MAXARGS {
        return Panic;
      }
      var more := ParseRedirsAt(s, arg.next);
      if more.Panic? {
        return Panic;
      }
      argv, rs := argv + [arg.span], rs + more.value;
      ArgsSkip(s, more.pos, argv, rs);
      SkipTwice(s, more.pos);
      stop, p := PeekAt(s, more.pos, {'|', ')', '&', ';'});
    }
    r := Ok(Wrap(Exec(argv), rs), p);
  }

  method ParseBlockAt(s: string, i: nat) returns (r: Result<Cmd>)
    requires i <= |s| && Peek(s, i, {'('})
    ensures r == ParseBlock(s, i)
    decreases |s| - i, 0
  {
    var open := GetTokenAt(s, i);
    var body := ParseLineAt(s, open.next);
    if body.Panic? {
      return Panic;
    }
    var yes, p := PeekAt(s, body.pos, {')'});
    SkipTwice(s, body.pos);
    if !yes {
      return Panic;
    }
    var close := GetTokenAt(s, p);
    var rds := ParseRedirsAt(s, close.next);
    if rds.Panic? {
      return Panic;
    }
    r := Ok(Wrap(body.value, rds.value), rds.pos);
  }

  method ParsePipeAt(s: string, i: nat) returns (r: Result<Cmd>)
    requires i <= |s|
    ensures r == ParsePipe(s, i)
    decreases |s| - i, 2
  {
    var left := ParseExecAt(s, i);
    if left.Panic? {
      return Panic;
    }
    var yes, p := PeekAt(s, left.pos, {'|'});
    SkipTwice(s, left.pos);
    if !yes {
      return Ok(left.value, p);
    }
    var bar := GetTokenAt(s, p);
    var right := ParsePipeAt(s, bar.next);
    r := if right.Panic? then Panic else Ok(Pipe(left.value, right.value), right.pos);
  }

  lemma BacksSkip(s: string, i: nat, cmd: Cmd)
    requires i <= |s|
    ensures ParseBacks(s, Skip(s, i), cmd) == ParseBacks(s, i, cmd)
  {
    SkipTwice(s, i);
  }

  method ParseLineAt(s: string, i: nat) returns (r: Result<Cmd>)
    requires i <= |s|
    ensures r == ParseLine(s, i)
    decreases |s| - i, 3
  {
    var first := ParsePipeAt(s, i);
    if first.Panic? {
      return Panic;
    }
    var cmd := first.value;
    var yes, p := PeekAt(s, first.pos, {'&'});
    SkipTwice(s, first.pos);
    BacksSkip(s, first.pos, cmd);
    while yes
      invariant first.pos <= p <= |s| && Skip(s, p) == p && yes == Peek(s, p, {'&'})
      invariant ParseBacks(s, first.pos, first.value) == ParseBacks(s, p, cmd)
      decreases |s| - p
    {
      var amp := GetTokenAt(s, p);
      cmd := Back(cmd);
      SkipTwice(s, amp.next);
      BacksSkip(s, amp.next, cmd);
      yes, p := PeekAt(s, amp.next, {'&'});
    }
    assert ParseBacks(s, p, cmd) == Ok(cmd, p);
    var more;
    more, p := PeekAt(s, p, {';'});
    if more {
      var semi := GetTokenAt(s, p);
      var rest := ParseLineAt(s, semi.next);
      return if rest.Panic? then Panic else Ok(List(cmd, rest.value), rest.pos);
    }
    r := Ok(cmd, p);
  }

  // ----- every parse result is well formed

  /** A word token: word characters, with something else (or the end) after them. */
  ghost predicate SpanOk(s: string, sp: Span) {
    && sp.q < sp.eq <= |s|
    && (forall k :: sp.q <= k < sp.eq ==> IsWordChar(s[k]))
    && (sp.eq < |s| ==> !IsWordChar(s[sp.eq]))
  }

  ghost predicate CmdOk(s: string, c: Cmd) {
    match c
    case Exec(argv) => |argv| < MAXARGS && forall i :: 0 <= i < |argv| ==> SpanOk(s, argv[i])
    case Redir(b, file, _) => CmdOk(s, b) && SpanOk(s, file)
    case Pipe(l, r) => CmdOk(s, l) && CmdOk(s, r)
    case List(l, r) => CmdOk(s, l) && CmdOk(s, r)
    case Back(b) => CmdOk(s, b)
  }

  ghost predicate FilesOk(s: string, rs: seq<Redirection>) {
    forall i :: 0 <= i < |rs| ==> SpanOk(s, rs[i].file)
  }

  lemma TokenOk(s: string, i: nat)
    requires i <= |s| && IsCString(s) && GetToken(s, i).tok.Word?
    ensures SpanOk(s, GetToken(s, i).span)
  {
    var q := Skip(s, i);
    forall k | q <= k < WordEnd(s, q) ensures IsWordChar(s[k]) { assert s[k] in s; }
  }

  lemma {:induction false} WrapOk(s: string, c: Cmd, rs: seq<Redirection>)
    requires CmdOk(s, c) && FilesOk(s, rs)
    ensures CmdOk(s, Wrap(c, rs))
    decreases |rs|
  {
    if |rs| > 0 { WrapOk(s, c, rs[..|rs| - 1]); }
  }

  lemma {:induction false} RedirsOkay(s: string, i: nat)
    requires i <= |s| && IsCString(s)
    ensures ParseRedirs(s, i).Ok? ==> FilesOk(s, ParseRedirs(s, i).value)
    decreases |s| - i
  {
    hide SpanOk, IsCString;
    if Peek(s, i, {'<', '>'}) {
      var file := GetToken(s, GetToken(s, i).next);
      if file.tok.Word? {
        TokenOk(s, GetToken(s, i).next);
        RedirsOkay(s, file.next);
      }
    }
  }

  lemma {:induction false} ArgsOkay(s: string, i: nat, argv: seq<Span>, rs: seq<Redirection>)
    requires i <= |s| && IsCString(s) && FilesOk(s, rs) && CmdOk(s, Exec(argv))
    ensures ParseArgs(s, i, argv, rs).Ok? ==> CmdOk(s, ParseArgs(s, i, argv, rs).value)
    decreases |s| - i
  {
    hide SpanOk, IsCString;
    WrapOk(s, Exec(argv), rs);
    if !Peek(s, i, {'|', ')', '&', ';'}) {
      var arg := GetToken(s, i);
      if arg.tok.Word? && |argv| + 1 < MAXARGS {
        TokenOk(s, i);
        RedirsOkay(s, arg.next);
        var more := ParseRedirs(s, arg.next);
        if more.Ok? { ArgsOkay(s, more.pos, argv + [arg.span], rs + more.value); }
      }
    }
  }

  lemma {:induction false} ExecOkay(s: string, i: nat)
    requires i <= |s| && IsCString(s)
    ensures ParseExec(s, i).Ok? ==> CmdOk(s, ParseExec(s, i).value)
    decreases |s| - i, 1
  {
    if Peek(s, i, {'('}) {
      BlockOkay(s, i);
    } else {
      RedirsOkay(s, Skip(s, i));
      var rs := ParseRedirs(s, Skip(s, i));
      if rs.Ok? { ArgsOkay(s, rs.pos, [], rs.value); }
    }
  }

  lemma {:induction false} BlockOkay(s: string, i: nat)
    requires i <= |s| && IsCString(s) && Peek(s, i, {'('})
    ensures ParseBlock(s, i).Ok? ==> CmdOk(s, ParseBlock(s, i).value)
    decreases |s| - i, 0
  {
    hide SpanOk, IsCString;
    var j := GetToken(s, i).next;
    LineOkay(s, j);
    var body := ParseLine(s, j);
    if body.Ok? && Peek(s, body.pos, {')'}) {
      var k := GetToken(s, body.pos).next;
      RedirsOkay(s, k);
      if ParseRedirs(s, k).Ok? { WrapOk(s, body.value, ParseRedirs(s, k).value); }
    }
  }

  lemma {:induction false} PipeOkay(s: string, i: nat)
    requires i <= |s| && IsCString(s)
    ensures ParsePipe(s, i).Ok? ==> CmdOk(s, ParsePipe(s, i).value)
    decreases |s| - i, 2
  {
    hide SpanOk, IsCString;
    ExecOkay(s, i);
    var left := ParseExec(s, i);
    if left.Ok? && Peek(s, left.pos, {'|'}) { PipeOkay(s, GetToken(s, left.pos).next); }
  }

  lemma {:induction false} BacksOkay(s: string, i: nat, cmd: Cmd)
    requires i <= |s| && CmdOk(s, cmd)
    ensures CmdOk(s, ParseBacks(s, i, cmd).value)
    decreases |s| - i
  {
    hide SpanOk;
    if Peek(s, i, {'&'}) { BacksOkay(s, GetToken(s, i).next, Back(cmd)); }
  }

  lemma {:induction false} LineOkay(s: string, i: nat)
    requires i <= |s| && IsCString(s)
    ensures ParseLine(s, i).Ok? ==> CmdOk(s, ParseLine(s, i).value)
    decreases |s| - i, 3
  {
    hide SpanOk, IsCString;
    PipeOkay(s, i);
    var first := ParsePipe(s, i);
    if first.Ok? {
      BacksOkay(s, first.pos, first.value);
      var cmd := ParseBacks(s, first.pos, first.value);
      if Peek(s, cmd.pos, {';'}) { LineOkay(s, GetToken(s, cmd.pos).next); }
    }
  }

  lemma {:induction false} ViewOkay(s: string, c: Cmd)
    requires CmdOk(s, c)
    ensures WellFormed(View(s, c))
  {
    match c
    case Exec(argv) =>
      forall i | 0 <= i < |argv| ensures IsWord(Texts(s, argv)[i]) { assert SpanOk(s, argv[i]); }
    case Redir(b, file, _) => ViewOkay(s, b);
    case Pipe(l, r) => ViewOkay(s, l); ViewOkay(s, r);
    case List(l, r) => ViewOkay(s, l); ViewOkay(s, r);
    case Back(b) => ViewOkay(s, b);
  }

  /** The trees that parsing can produce are exactly the well-formed ones, and printing a
      parsed command and parsing it again changes nothing. */
  lemma ParseThenPrint(s: string)
    requires IsCString(s) && ParseCmd(s).Ok?
    ensures var t := View(s, ParseCmd(s).value);
            var s' := Print(t, 0);
            WellFormed(t) && ParseCmd(s').Ok? && View(s', ParseCmd(s').value) == t
  {
    LineOkay(s, 0);
    ViewOkay(s, ParseCmd(s).value);
    RoundTrip(View(s, ParseCmd(s).value));
  }

  // ----- nulterminate

  /** The spans of a command, in the order nulterminate visits them. */
  function Spans(c: Cmd): seq<Span> {
    match c
    case Exec(argv) => argv
    case Redir(b, file, _) => Spans(b) + [file]
    case Pipe(l, r) => Spans(l) + Spans(r)
    case List(l, r) => Spans(l) + Spans(r)
    case Back(b) => Spans(b)
  }

  lemma {:induction false} SpansOk(s: string, c: Cmd)
    requires CmdOk(s, c)
    ensures forall i :: 0 <= i < |Spans(c)| ==> SpanOk(s, Spans(c)[i])
  {
    hide SpanOk;
    match c
    case Exec(argv) =>
    case Redir(b, file, _) => SpansOk(s, b);
    case Pipe(l, r) => SpansOk(s, l); SpansOk(s, r);
    case List(l, r) => SpansOk(s, l); SpansOk(s, r);
    case Back(b) => SpansOk(s, b);
  }

  predicate EndsAt(spans: seq<Span>, k: nat) {
    exists i :: 0 <= i < |spans| && spans[i].eq == k
  }

  /** `after` is `before` with a NUL at the end of every span. */
  ghost predicate Terminated(before: seq<char>, after: seq<char>, spans: seq<Span>) {
    && |after| == |before|
    && forall k :: 0 <= k < |after| ==> after[k] == if EndsAt(spans, k) then '\0' else before[k]
  }

  lemma TerminateBoth(a: seq<char>, b: seq<char>, c: seq<char>, xs: seq<Span>, ys: seq<Span>)
    requires Terminated(a, b, xs) && Terminated(b, c, ys)
    ensures Terminated(a, c, xs + ys)
  {
    forall k: nat | k < |a| ensures EndsAt(xs + ys, k) <==> EndsAt(xs, k) || EndsAt(ys, k) {
      if i :| 0 <= i < |xs| && xs[i].eq == k { assert (xs + ys)[i].eq == k; }
      if i :| 0 <= i < |ys| && ys[i].eq == k { assert (xs + ys)[|xs| + i].eq == k; }
    }
  }

  method NulTerminate(c: Cmd, buf: array<char>)
    requires EndWithin(Spans(c), buf.Length)
    modifies buf
    ensures Terminated(old(buf[..]), buf[..], Spans(c))
    decreases c
  {
    match c
    case Exec(argv) =>
      for i := 0 to |argv|
        invariant Terminated(old(buf[..]), buf[..], argv[..i])
      {
        ghost var mid := buf[..];
        buf[argv[i].eq] := '\0';
        TerminateOne(old(buf[..]), mid, buf[..], argv, i);
      }
      assert argv[..|argv|] == argv;
    case Redir(b, file, _) =>
      EndsSplit(Spans(b), [file], buf.Length);
      NulTerminate(b, buf);
      ghost var mid := buf[..];
      assert [file][0] == file;
      buf[file.eq] := '\0';
      assert Terminated(mid, buf[..], [file]);
      TerminateBoth(old(buf[..]), mid, buf[..], Spans(b), [file]);
    case Pipe(l, r) =>
      EndsSplit(Spans(l), Spans(r), buf.Length);
      NulTerminate(l, buf);
      ghost var mid := buf[..];
      NulTerminate(r, buf);
      TerminateBoth(old(buf[..]), mid, buf[..], Spans(l), Spans(r));
    case List(l, r) =>
      EndsSplit(Spans(l), Spans(r), buf.Length);
      NulTerminate(l, buf);
      ghost var mid := buf[..];
      NulTerminate(r, buf);
      TerminateBoth(old(buf[..]), mid, buf[..], Spans(l), Spans(r));
    case Back(b) => NulTerminate(b, buf);
  }

  ghost predicate EndWithin(spans: seq<Span>, n: nat) {
    forall i :: 0 <= i < |spans| ==> spans[i].eq < n
  }

  lemma EndsSplit(xs: seq<Span>, ys: seq<Span>, n: nat)
    requires EndWithin(xs + ys, n)
    ensures EndWithin(xs, n) && EndWithin(ys, n)
  {
    forall i | 0 <= i < |xs| ensures xs[i].eq < n { assert (xs + ys)[i] == xs[i]; }
    forall i | 0 <= i < |ys| ensures ys[i].eq < n { assert (xs + ys)[|xs| + i] == ys[i]; }
  }

  lemma TerminateOne(a: seq<char>, b: seq<char>, c: seq<char>, argv: seq<Span>, i: nat)
    requires i < |argv| && Terminated(a, b, argv[..i]) && argv[i].eq < |b|
    requires c == b[argv[i].eq := '\0']
    ensures Terminated(a, c, argv[..i + 1])
  {
    assert Terminated(b, c, [argv[i]]) by { assert [argv[i]][0] == argv[i]; }
    TerminateBoth(a, b, c, argv[..i], [argv[i]]);
    assert argv[..i + 1] == argv[..i] + [argv[i]];
  }

  /** The C string that starts at position `q`. */
  function CStringAt(b: seq<char>, q: nat): string
    requires q <= |b|
    decreases |b| - q
  {
    if q == |b| || b[q] == '\0' then "" else [b[q]] + CStringAt(b, q + 1)
  }

  lemma {:induction false} CStringIs(b: seq<char>, q: nat, w: string)
    requires q + |w| < |b| && b[q + |w|] == '\0'
    requires forall k :: 0 <= k < |w| ==> b[q + k] == w[k] && w[k] != '\0'
    ensures CStringAt(b, q) == w
    decreases |w|
  {
    if |w| > 0 {
      assert b[q + 0] == w[0];
      forall k | 0 <= k < |w| - 1 ensures b[q + 1 + k] == w[1..][k] && w[1..][k] != '\0' {
        assert b[q + (k + 1)] == w[k + 1];
      }
      CStringIs(b, q + 1, w[1..]);
      assert w == [w[0]] + w[1..];
    }
  }

  /** Terminating words in place is safe: no word's end lies inside another word, because inside
      a word there are only word characters and a word ends before something else. */
  lemma WordsSurvive(s: string, spans: seq<Span>, after: seq<char>, i: nat)
    requires forall k :: 0 <= k < |spans| ==> SpanOk(s, spans[k])
    requires i < |spans| && Terminated(s + ['\0'], after, spans)
    ensures spans[i].q <= |after| && CStringAt(after, spans[i].q) == Text(s, spans[i])
  {
    var sp := spans[i];
    var w := Text(s, sp);
    assert SpanOk(s, sp);
    assert EndsAt(spans, sp.eq);
    forall k | 0 <= k < |w| ensures after[sp.q + k] == w[k] && w[k] != '\0' {
      assert IsWordChar(s[sp.q + k]);
      forall j | 0 <= j < |spans| ensures spans[j].eq != sp.q + k { assert SpanOk(s, spans[j]); }
    }
    CStringIs(after, sp.q, w);
  }

  /** parsecmd on a NUL-terminated buffer: the parse of the input, after which every argument
      and file name can be read from the buffer as a C string of its own. */
  method ParseCommand(buf: array<char>, n: nat) returns (r: Result<Cmd>)
    requires buf.Length == n + 1 && buf[n] == '\0' && IsCString(buf[..n])
    modifies buf
    ensures r == ParseCmd(old(buf[..n]))
    ensures r.Panic? ==> buf[..] == old(buf[..])
    ensures r.Ok? ==> forall i :: 0 <= i < |Spans(r.value)| ==>
              Spans(r.value)[i].q <= buf.Length &&
              CStringAt(buf[..], Spans(r.value)[i].q) == Text(old(buf[..n]), Spans(r.value)[i])
  {
    var s := buf[..n];
    var line := ParseLineAt(s, 0);
    if line.Panic? {
      return Panic;
    }
    var end := SkipSpaces(s, line.pos);
    if end != n {
      return Panic;
    }
    var c := line.value;
    LineOkay(s, 0);
    SpansOk(s, c);
    forall i | 0 <= i < |Spans(c)| ensures Spans(c)[i].eq < buf.Length { assert SpanOk(s, Spans(c)[i]); }
    assert buf[..] == s + ['\0'];
    NulTerminate(c, buf);
    forall i | 0 <= i < |Spans(c)|
      ensures Spans(c)[i].q <= buf.Length && CStringAt(buf[..], Spans(c)[i].q) == Text(s, Spans(c)[i])
    {
      WordsSurvive(s, Spans(c), buf[..], i);
    }
    r := Ok(c, end);
  }
}
