/** The command parser of sh.c.

    The input is a C string without its NUL; positions are indices into it.  `panic` leaves
    the shell, so a parser either returns a command and the position after it or fails.  The
    functions below say what each parser computes; module ShellCode holds the loops. */
module Shell {

  const MAXARGS: nat := 10

  /** The string `whitespace` of sh.c. */
  predicate IsSpace(c: char) {
    c == ' ' || c == '\t' || c == '\r' || c == '\n' || c == '\U{0B}'
  }

  /** The string `symbols` of sh.c. */
  predicate IsSymbol(c: char) {
    c == '<' || c == '|' || c == '>' || c == '&' || c == ';' || c == '(' || c == ')'
  }

  predicate IsWordChar(c: char) { !IsSpace(c) && !IsSymbol(c) && c != '\0' }

  /** The C string holds no NUL before its end. */
  ghost predicate IsCString(s: string) { '\0' !in s }

  /** A token's position in the input: the pointers q and eq of gettoken. */
  datatype Span = Span(q: nat, eq: nat)

  datatype Token = End | Symbol(c: char) | Append | Word

  /** What gettoken returns: the token, its span, and the position after it. */
  datatype Lexed = Lexed(tok: Token, span: Span, next: nat)

  datatype Cmd =
    | Exec(argv: seq<Span>)
    | Redir(cmd: Cmd, file: Span, out: bool)   // out: O_WRONLY|O_CREATE on 1; else O_RDONLY on 0
    | Pipe(left: Cmd, right: Cmd)
    | List(left: Cmd, right: Cmd)
    | Back(cmd: Cmd)

  datatype Result<T> = Ok(value: T, pos: nat) | Panic

  datatype Redirection = Redirection(file: Span, out: bool)

  // ----- tokens

  /** The first position at or after `i` that does not hold white space. */
  function Skip(s: string, i: nat): (j: nat)
    requires i <= |s|
    ensures i <= j <= |s|
    ensures forall k :: i <= k < j ==> IsSpace(s[k])
    ensures j < |s| ==> !IsSpace(s[j])
    decreases |s| - i
  {
    if i < |s| && IsSpace(s[i]) then Skip(s, i + 1) else i
  }

  function WordEnd(s: string, i: nat): (j: nat)
    requires i <= |s|
    ensures i <= j <= |s|
    ensures forall k :: i <= k < j ==> !IsSpace(s[k]) && !IsSymbol(s[k])
    ensures j < |s| ==> IsSpace(s[j]) || IsSymbol(s[j])
    decreases |s| - i
  {
    if i < |s| && !IsSpace(s[i]) && !IsSymbol(s[i]) then WordEnd(s, i + 1) else i
  }

  function SymbolAt(s: string, q: nat): Lexed
    requires q < |s|
  {
    if s[q] == '>' && q + 1 < |s| && s[q + 1] == '>' then Lexed(Append, Span(q, q + 2), Skip(s, q + 2))
    else Lexed(Symbol(s[q]), Span(q, q + 1), Skip(s, q + 1))
  }

  /** gettoken: the token, its span, and the position after it and the white space that follows. */
  function GetToken(s: string, i: nat): (r: Lexed)
    requires i <= |s|
    ensures i <= r.span.q <= r.span.eq <= r.next <= |s|
    ensures r.tok.End? <==> r.span.q == |s|
    ensures !r.tok.End? ==> r.span.q < r.span.eq
    ensures r.next < |s| ==> !IsSpace(s[r.next])
  {
    var q := Skip(s, i);
    if q == |s| then Lexed(End, Span(q, q), q)
    else if IsSymbol(s[q]) then SymbolAt(s, q)
    else Lexed(Word, Span(q, WordEnd(s, q)), Skip(s, WordEnd(s, q)))
  }

  predicate Peek(s: string, i: nat, toks: set<char>)
    requires i <= |s|
  {
    var j := Skip(s, i);
    j < |s| && s[j] in toks
  }

  // ----- parsers

  function Wrap(cmd: Cmd, rs: seq<Redirection>): Cmd
    decreases |rs|
  {
    if |rs| == 0 then cmd
    else Redir(Wrap(cmd, rs[..|rs| - 1]), rs[|rs| - 1].file, rs[|rs| - 1].out)
  }

  function ParseRedirs(s: string, i: nat): (r: Result<seq<Redirection>>)
    requires i <= |s|
    ensures r.Ok? ==> i <= r.pos <= |s|
    decreases |s| - i
  {
    if !Peek(s, i, {'<', '>'}) then Ok([], Skip(s, i))
    else
      var op := GetToken(s, i);
      var file := GetToken(s, op.next);
      if !file.tok.Word? then Panic
      else
        var rest := ParseRedirs(s, file.next);
        if rest.Panic? then Panic
        else Ok([Redirection(file.span, op.tok != Symbol('<'))] + rest.value, rest.pos)
  }

  function ParseArgs(s: string, i: nat, argv: seq<Span>, rs: seq<Redirection>): (r: Result<Cmd>)
    requires i <= |s|
    ensures r.Ok? ==> i <= r.pos <= |s|
    decreases |s| - i
  {
    if Peek(s, i, {'|', ')', '&', ';'}) then Ok(Wrap(Exec(argv), rs), Skip(s, i))
    else
      var arg := GetToken(s, i);
      if arg.tok.End? then Ok(Wrap(Exec(argv), rs), arg.next)
      else if !arg.tok.Word? then Panic
      else if |argv| + 1 >= MAXARGS then Panic
      else
        var more := ParseRedirs(s, arg.next);
        if more.Panic? then Panic
        else ParseArgs(s, more.pos, argv + [arg.span], rs + more.value)
  }

  function ParseExec(s: string, i: nat): (r: Result<Cmd>)
    requires i <= |s|
    ensures r.Ok? ==> i <= r.pos <= |s|
    decreases |s| - i, 1
  {
    if Peek(s, i, {'('}) then ParseBlock(s, i)
    else
      var rs := ParseRedirs(s, Skip(s, i));
      if rs.Panic? then Panic else ParseArgs(s, rs.pos, [], rs.value)
  }

  function ParseBlock(s: string, i: nat): (r: Result<Cmd>)
    requires i <= |s| && Peek(s, i, {'('})
    ensures r.Ok? ==> i <= r.pos <= |s|
    decreases |s| - i, 0
  {
    var body := ParseLine(s, GetToken(s, i).next);
    if body.Panic? then Panic
    else if !Peek(s, body.pos, {')'}) then Panic
    else
      var rs := ParseRedirs(s, GetToken(s, body.pos).next);
      if rs.Panic? then Panic else Ok(Wrap(body.value, rs.value), rs.pos)
  }

  function ParsePipe(s: string, i: nat): (r: Result<Cmd>)
    requires i <= |s|
    ensures r.Ok? ==> i <= r.pos <= |s|
    decreases |s| - i, 2
  {
    var left := ParseExec(s, i);
    if left.Panic? then Panic
    else if !Peek(s, left.pos, {'|'}) then Ok(left.value, Skip(s, left.pos))
    else
      var right := ParsePipe(s, GetToken(s, left.pos).next);
      if right.Panic? then Panic else Ok(Pipe(left.value, right.value), right.pos)
  }

  function ParseBacks(s: string, i: nat, cmd: Cmd): (r: Result<Cmd>)
    requires i <= |s|
    ensures r.Ok? && i <= r.pos <= |s|
    decreases |s| - i
  {
    if !Peek(s, i, {'&'}) then Ok(cmd, Skip(s, i))
    else ParseBacks(s, GetToken(s, i).next, Back(cmd))
  }

  function ParseLine(s: string, i: nat): (r: Result<Cmd>)
    requires i <= |s|
    ensures r.Ok? ==> i <= r.pos <= |s|
    decreases |s| - i, 3
  {
    var first := ParsePipe(s, i);
    if first.Panic? then Panic
    else
      var cmd := ParseBacks(s, first.pos, first.value);
      if !Peek(s, cmd.pos, {';'}) then Ok(cmd.value, Skip(s, cmd.pos))
      else
        var rest := ParseLine(s, GetToken(s, cmd.pos).next);
        if rest.Panic? then Panic else Ok(List(cmd.value, rest.value), rest.pos)
  }

  /** parsecmd, up to nulterminate. */
  function ParseCmd(s: string): (r: Result<Cmd>)
    ensures r.Ok? ==> r.pos == |s|
  {
    var line := ParseLine(s, 0);
    if line.Panic? then Panic
    else
      var end := Skip(s, line.pos);
      if end != |s| then Panic else Ok(line.value, end)
  }
}
