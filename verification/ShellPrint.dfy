/** Printing command trees and parsing them back: the parser of sh.c undoes a printer that
    parenthesises only where the grammar needs it, and every parse result is printable. */
module ShellPrint {
  import opened Shell

  /** A command as runcmd sees it, words as strings. */
  datatype Tree =
    | TExec(args: seq<string>)
    | TRedir(body: Tree, file: string, out: bool)
    | TPipe(left: Tree, right: Tree)
    | TList(left: Tree, right: Tree)
    | TBack(body: Tree)

  function Text(s: string, sp: Span): string {
    if sp.q <= sp.eq <= |s| then s[sp.q..sp.eq] else ""
  }

  function Texts(s: string, spans: seq<Span>): (r: seq<string>)
    ensures |r| == |spans|
  {
    seq(|spans|, i requires 0 <= i < |spans| => Text(s, spans[i]))
  }

  /** The tree that a parsed command denotes. */
  function View(s: string, c: Cmd): Tree {
    match c
    case Exec(argv) => TExec(Texts(s, argv))
    case Redir(body, file, out) => TRedir(View(s, body), Text(s, file), out)
    case Pipe(l, r) => TPipe(View(s, l), View(s, r))
    case List(l, r) => TList(View(s, l), View(s, r))
    case Back(body) => TBack(View(s, body))
  }

  predicate IsWord(w: string) {
    |w| > 0 && forall k :: 0 <= k < |w| ==> IsWordChar(w[k])
  }

  predicate WellFormed(t: Tree) {
    match t
    case TExec(args) => |args| < MAXARGS && forall i :: 0 <= i < |args| ==> IsWord(args[i])
    case TRedir(body, file, _) => WellFormed(body) && IsWord(file)
    case TPipe(l, r) => WellFormed(l) && WellFormed(r)
    case TList(l, r) => WellFormed(l) && WellFormed(r)
    case TBack(body) => WellFormed(body)
  }

  // ----- the printer

  function PrintArgs(args: seq<string>): string {
    if |args| == 0 then "" else if |args| == 1 then args[0] else args[0] + " " + PrintArgs(args[1..])
  }

  function PrintRedir(file: string, out: bool): string {
    (if out then ">" else "<") + file
  }

  function Height(t: Tree): nat {
    match t
    case TExec(_) => 0
    case TRedir(b, _, _) => 1 + Height(b)
    case TPipe(l, r) => 1 + Height(l) + Height(r)
    case TList(l, r) => 1 + Height(l) + Height(r)
    case TBack(b) => 1 + Height(b)
  }

  /** How tightly a tree's own grammar rule binds: line, background, pipeline, command. */
  function Own(t: Tree): nat {
    match t
    case TList(_, _) => 0
    case TBack(_) => 1
    case TPipe(_, _) => 2
    case _ => 3
  }

  /** Print `t` where the grammar expects something that binds at least as tightly as `level`. */
  function Print(t: Tree, level: nat): string
    decreases Height(t), if Own(t) < level then 1 else 0
  {
    if Own(t) < level then "(" + Print(t, 0) + ")"
    else match t
      case TList(l, r) => Print(l, 1) + ";" + Print(r, 0)
      case TBack(b) => Print(b, 1) + "&"
      case TPipe(l, r) => Print(l, 3) + "|" + Print(r, 2)
      case TRedir(b, file, out) => Print(b, 3) + PrintRedir(file, out)
      case TExec(args) => PrintArgs(args)
  }

  // ----- reading tokens back

  /** The input from position `i` on is `text`. */
  ghost predicate At(s: string, i: nat, text: string) {
    i <= |s| && s[i..] == text
  }

  lemma Advance(s: string, i: nat, a: string, b: string)
    requires At(s, i, a + b)
    ensures At(s, i + |a|, b) && s[i..i + |a|] == a
  {
    assert s[i + |a|..] == s[i..][|a|..];
    assert s[i..i + |a|] == s[i..][..|a|];
  }

  lemma HeadAt(s: string, i: nat, text: string)
    requires At(s, i, text)
    ensures |text| > 0 ==> i < |s| && s[i] == text[0]
    ensures |text| == 0 ==> i == |s|
    ensures |text| > 1 ==> i + 1 < |s| && s[i + 1] == text[1]
    ensures |text| > 0 && !IsSpace(text[0]) ==> Skip(s, i) == i
    ensures |text| == 0 ==> Skip(s, i) == i
  {
  }

  /** What may come after a word: nothing, white space or a symbol. */
  predicate EndsWord(rest: string) {
    |rest| > 0 ==> !IsWordChar(rest[0]) && rest[0] != '\0'
  }

  /** Does not start with white space, so a parser that skips it stays put. */
  predicate Tight(rest: string) {
    |rest| > 0 ==> !IsSpace(rest[0])
  }

  lemma {:induction false} WordEndAt(s: string, i: nat, w: string, rest: string)
    requires At(s, i, w + rest) && EndsWord(rest)
    requires forall k :: 0 <= k < |w| ==> IsWordChar(w[k])
    ensures WordEnd(s, i) == i + |w|
    decreases |w|
  {
    HeadAt(s, i, w + rest);
    if |w| > 0 {
      Advance(s, i, [w[0]], w[1..] + rest) by { assert [w[0]] + (w[1..] + rest) == w + rest; }
      WordEndAt(s, i + 1, w[1..], rest);
    }
  }

  lemma WordToken(s: string, i: nat, w: string, rest: string)
    requires At(s, i, w + rest) && IsWord(w) && EndsWord(rest)
    ensures At(s, i + |w|, rest) && i + |w| <= |s| && (Tight(rest) ==> Skip(s, i + |w|) == i + |w|)
    ensures GetToken(s, i) == Lexed(Word, Span(i, i + |w|), Skip(s, i + |w|)) && Text(s, Span(i, i + |w|)) == w
  {
    hide At, GetToken, EndsWord;
    HeadAt(s, i, w + rest);
    Advance(s, i, w, rest);
    WordEndAt(s, i, w, rest);
    assert s[i] == w[0];
    WordHere(s, i);
    HeadAt(s, i + |w|, rest);
  }

  lemma WordHere(s: string, i: nat)
    requires i < |s| && IsWordChar(s[i])
    ensures GetToken(s, i) == Lexed(Word, Span(i, WordEnd(s, i)), Skip(s, WordEnd(s, i)))
  {
  }

  lemma SymbolToken(s: string, i: nat, c: char, rest: string)
    requires At(s, i, [c] + rest) && IsSymbol(c) && (c == '>' && |rest| > 0 ==> rest[0] != '>')
    ensures At(s, i + 1, rest) && i + 1 <= |s| && (Tight(rest) ==> Skip(s, i + 1) == i + 1)
    ensures GetToken(s, i) == Lexed(Symbol(c), Span(i, i + 1), Skip(s, i + 1))
    ensures Skip(s, i) == i && s[i] == c && i < |s|
  {
    HeadAt(s, i, [c] + rest);
    Advance(s, i, [c], rest);
    HeadAt(s, i + 1, rest);
  }


  // ----- reading redirections back

  datatype PlainRedir = PlainRedir(file: string, out: bool)

  function PrintRedirs(rs: seq<PlainRedir>): string {
    if |rs| == 0 then "" else PrintRedir(rs[0].file, rs[0].out) + PrintRedirs(rs[1..])
  }

  ghost predicate RedirsOk(rs: seq<PlainRedir>) {
    forall i :: 0 <= i < |rs| ==> IsWord(rs[i].file)
  }

  /** The spans in `rs` read `want`. */
  ghost predicate Reads(s: string, rs: seq<Redirection>, want: seq<PlainRedir>) {
    |rs| == |want| && forall i :: 0 <= i < |rs| ==> Text(s, rs[i].file) == want[i].file && rs[i].out == want[i].out
  }

  /** What may come after a command: nothing, or a symbol that ends it. */
  predicate Follow(rest: string) {
    |rest| > 0 ==> rest[0] in {'|', ')', '&', ';'}
  }

  lemma RedirsEndWord(rs: seq<PlainRedir>, rest: string)
    requires Follow(rest)
    ensures EndsWord(PrintRedirs(rs) + rest) && Tight(PrintRedirs(rs) + rest)
    ensures |PrintRedirs(rs) + rest| > 0 ==>
      (PrintRedirs(rs) + rest)[0] in {'<', '>', '|', ')', '&', ';'}
    ensures |rs| == 0 ==> PrintRedirs(rs) + rest == rest
  {
  }

  lemma RedirToken(s: string, i: nat, r: PlainRedir, more: string)
    requires At(s, i, PrintRedir(r.file, r.out) + more) && IsWord(r.file) && EndsWord(more) && Tight(more)
    ensures i + 1 <= |s| && Peek(s, i, {'<', '>'}) && Skip(s, i) == i
    ensures GetToken(s, i) == Lexed(Symbol(if r.out then '>' else '<'), Span(i, i + 1), i + 1)
    ensures var end := i + 1 + |r.file|;
            && At(s, end, more)
            && GetToken(s, i + 1) == Lexed(Word, Span(i + 1, end), end)
            && Text(s, Span(i + 1, end)) == r.file
  {
    hide At, GetToken, EndsWord, Text;
    var c := if r.out then '>' else '<';
    assert PrintRedir(r.file, r.out) + more == [c] + (r.file + more);
    assert (r.file + more)[0] == r.file[0];
    SymbolToken(s, i, c, r.file + more);
    WordToken(s, i + 1, r.file, more);
  }

  lemma OneRedir(s: string, i: nat, op: Lexed, file: Lexed)
    requires i <= |s| && Peek(s, i, {'<', '>'}) && op == GetToken(s, i)
    requires op.next <= |s| && file == GetToken(s, op.next) && file.tok.Word? && file.next <= |s|
    ensures var rest := ParseRedirs(s, file.next);
            rest.Ok? ==> ParseRedirs(s, i) == Ok([Redirection(file.span, op.tok != Symbol('<'))] + rest.value, rest.pos)
  {
  }

  lemma NoRedir(s: string, i: nat, rest: string)
    requires At(s, i, rest) && Follow(rest)
    ensures i <= |s| && !Peek(s, i, {'<', '>'}) && Skip(s, i) == i && ParseRedirs(s, i) == Ok([], i)
  {
    HeadAt(s, i, rest);
  }

  lemma {:induction false} RedirsBack(s: string, i: nat, rs: seq<PlainRedir>, rest: string)
    requires At(s, i, PrintRedirs(rs) + rest) && RedirsOk(rs) && Follow(rest)
    ensures var r := ParseRedirs(s, i);
            r.Ok? && r.pos == i + |PrintRedirs(rs)| && Reads(s, r.value, rs)
    ensures At(s, i + |PrintRedirs(rs)|, rest)
    decreases |rs|
  {
    hide GetToken, Peek, IsWord, At, EndsWord, Tight, Follow, Text, ParseRedirs, PrintRedirs;
    SplitRedirs(rs, rest);
    if |rs| == 0 {
      NoRedir(s, i, rest);
    } else {
      var more := PrintRedirs(rs[1..]) + rest;
      RedirsEndWord(rs[1..], rest);
      RedirToken(s, i, rs[0], more);
      OneRedir(s, i, GetToken(s, i), GetToken(s, i + 1));
      RedirsBack(s, i + 1 + |rs[0].file|, rs[1..], rest);
    }
  }

  lemma SplitRedirs(rs: seq<PlainRedir>, rest: string)
    ensures |rs| == 0 ==> PrintRedirs(rs) == "" && PrintRedirs(rs) + rest == rest
    ensures |rs| > 0 ==> PrintRedirs(rs) + rest == PrintRedir(rs[0].file, rs[0].out) + (PrintRedirs(rs[1..]) + rest)
    ensures |rs| > 0 ==> |PrintRedirs(rs)| == 1 + |rs[0].file| + |PrintRedirs(rs[1..])|
  {
  }

  // ----- a command and the redirections around it

  function BaseOf(t: Tree): (b: Tree)
    ensures !b.TRedir? && Height(b) <= Height(t) && (t.TRedir? ==> Height(b) < Height(t))
    ensures WellFormed(t) ==> WellFormed(b)
  {
    if t.TRedir? then BaseOf(t.body) else t
  }

  function RedirsOf(t: Tree): (rs: seq<PlainRedir>)
    ensures WellFormed(t) ==> RedirsOk(rs)
  {
    if t.TRedir? then RedirsOf(t.body) + [PlainRedir(t.file, t.out)] else []
  }

  function WrapTree(b: Tree, rs: seq<PlainRedir>): Tree
    decreases |rs|
  {
    if |rs| == 0 then b
    else TRedir(WrapTree(b, rs[..|rs| - 1]), rs[|rs| - 1].file, rs[|rs| - 1].out)
  }

  lemma {:induction false} Unwrap(t: Tree)
    ensures t == WrapTree(BaseOf(t), RedirsOf(t))
  {
    if t.TRedir? {
      Unwrap(t.body);
      assert RedirsOf(t)[..|RedirsOf(t)| - 1] == RedirsOf(t.body);
    }
  }

  lemma {:induction false} PrintRedirsSnoc(rs: seq<PlainRedir>, r: PlainRedir)
    ensures PrintRedirs(rs + [r]) == PrintRedirs(rs) + PrintRedir(r.file, r.out)
  {
    if |rs| == 0 {
      assert rs + [r] == [r];
      assert [r][1..] == [];
    } else {
      PrintRedirsSnoc(rs[1..], r);
      assert (rs + [r])[1..] == rs[1..] + [r];
      hide PrintRedir;
      Associate(PrintRedir(rs[0].file, rs[0].out), PrintRedirs(rs[1..]), PrintRedir(r.file, r.out));
    }
  }

  lemma Associate(a: string, b: string, c: string)
    ensures a + (b + c) == a + b + c
  {
  }

  lemma {:induction false} PrintUnwrapped(t: Tree)
    ensures Print(t, 3) == Print(BaseOf(t), 3) + PrintRedirs(RedirsOf(t))
  {
    if t.TRedir? {
      PrintUnwrapped(t.body);
      PrintRedirsSnoc(RedirsOf(t.body), PlainRedir(t.file, t.out));
    }
  }

  lemma {:induction false} ViewWrap(s: string, c: Cmd, rs: seq<Redirection>, want: seq<PlainRedir>)
    requires Reads(s, rs, want)
    ensures View(s, Wrap(c, rs)) == WrapTree(View(s, c), want)
    decreases |rs|
  {
    if |rs| > 0 {
      ViewWrap(s, c, rs[..|rs| - 1], want[..|want| - 1]);
    }
  }

  // ----- reading words back

  lemma SplitArgs(args: seq<string>, tail: string)
    requires |args| > 0
    ensures PrintArgs(args) + tail ==
            args[0] + (if |args| == 1 then tail else [' '] + (PrintArgs(args[1..]) + tail))
    ensures |PrintArgs(args)| == |args[0]| + if |args| == 1 then 0 else 1 + |PrintArgs(args[1..])|
  {
    if |args| > 1 {
      assert PrintArgs(args) + tail == args[0] + [' '] + PrintArgs(args[1..]) + tail;
    }
  }

  lemma ArgsHead(args: seq<string>, tail: string)
    requires |args| > 0 && IsWord(args[0])
    ensures |PrintArgs(args) + tail| > 0 && IsWordChar((PrintArgs(args) + tail)[0])
  {
    assert PrintArgs(args)[0] == args[0][0];
  }

  /** A word ahead: not a redirection, not the end of the command. */
  lemma WordAhead(s: string, i: nat, text: string)
    requires At(s, i, text) && |text| > 0 && IsWordChar(text[0])
    ensures i < |s| && Skip(s, i) == i && IsWordChar(s[i])
    ensures !Peek(s, i, {'<', '>'}) && !Peek(s, i, {'|', ')', '&', ';'}) && !Peek(s, i, {'('})
    ensures ParseRedirs(s, i) == Ok([], i)
  {
    HeadAt(s, i, text);
  }

  /** One word that another word follows. */
  lemma WordThenWord(s: string, i: nat, w: string, text: string)
    requires At(s, i, w + ([' '] + text)) && IsWord(w) && |text| > 0 && IsWordChar(text[0])
    ensures var j := i + |w| + 1;
            && At(s, j, text) && j <= |s|
            && GetToken(s, i) == Lexed(Word, Span(i, i + |w|), j) && Text(s, Span(i, i + |w|)) == w
  {
    hide At, GetToken, Text, IsWord;
    WordToken(s, i, w, [' '] + text);
    hide EndsWord;
    Advance(s, i + |w|, [' '], text);
    HeadAt(s, i + |w|, [' '] + text);
    HeadAt(s, i + |w| + 1, text);
    SkipOne(s, i + |w|);
  }

  lemma SkipOne(s: string, i: nat)
    requires i < |s| && IsSpace(s[i])
    ensures Skip(s, i) == Skip(s, i + 1)
  {
  }

  lemma ArgsStep(s: string, i: nat, argv: seq<Span>, rs: seq<Redirection>, arg: Lexed, more: Result<seq<Redirection>>)
    requires i <= |s| && !Peek(s, i, {'|', ')', '&', ';'}) && arg == GetToken(s, i) && arg.tok.Word?
    requires |argv| + 1 < MAXARGS && arg.next <= |s| && more == ParseRedirs(s, arg.next) && more.Ok? && more.pos <= |s|
    ensures ParseArgs(s, i, argv, rs) == ParseArgs(s, more.pos, argv + [arg.span], rs + more.value)
  {
  }

  lemma ArgsDone(s: string, i: nat, argv: seq<Span>, rs: seq<Redirection>, rest: string)
    requires At(s, i, rest) && Follow(rest)
    ensures i <= |s| && ParseArgs(s, i, argv, rs) == Ok(Wrap(Exec(argv), rs), i)
  {
    HeadAt(s, i, rest);
  }

  lemma {:induction false} ArgsBack(s: string, i: nat, argv: seq<Span>, rs: seq<Redirection>,
                                    args: seq<string>, want: seq<PlainRedir>, rest: string)
    returns (spans: seq<Span>, rds: seq<Redirection>)
    requires At(s, i, PrintArgs(args) + (PrintRedirs(want) + rest)) && Follow(rest)
    requires 0 < |args| && |argv| + |args| < MAXARGS && RedirsOk(want)
    requires forall k :: 0 <= k < |args| ==> IsWord(args[k])
    ensures var end := i + |PrintArgs(args)| + |PrintRedirs(want)|;
            && At(s, end, rest) && i <= |s|
            && ParseArgs(s, i, argv, rs) == Ok(Wrap(Exec(argv + spans), rs + rds), end)
    ensures Texts(s, spans) == args && Reads(s, rds, want)
    decreases |args|
  {
    hide At, GetToken, Peek, Follow, RedirsOk, ParseRedirs, IsWordChar, ParseArgs, PrintArgs, PrintRedirs, Reads, IsWord,
      EndsWord, Tight, Wrap, Skip, Text;
    var tail := PrintRedirs(want) + rest;
    SplitArgs(args, tail);
    ArgsHead(args, tail);
    WordAhead(s, i, PrintArgs(args) + tail);
    if |args| == 1 {
      RedirsEndWord(want, rest);
      WordToken(s, i, args[0], tail);
      var j := i + |args[0]|;
      RedirsBack(s, j, want, rest);
      var more := ParseRedirs(s, j);
      ArgsStep(s, i, argv, rs, GetToken(s, i), more);
      ArgsDone(s, more.pos, argv + [Span(i, j)], rs + more.value, rest);
      spans, rds := [Span(i, j)], more.value;
    } else {
      var text := PrintArgs(args[1..]) + tail;
      ArgsHead(args[1..], tail);
      WordThenWord(s, i, args[0], text);
      var j := i + |args[0]|;
      WordAhead(s, j + 1, text);
      ArgsStep(s, i, argv, rs, GetToken(s, i), ParseRedirs(s, j + 1));
      assert rs + [] == rs;
      var spans', rds' := ArgsBack(s, j + 1, argv + [Span(i, j)], rs, args[1..], want, rest);
      spans, rds := [Span(i, j)] + spans', rds';
      assert argv + [Span(i, j)] + spans' == argv + spans;
    }
  }

  // ----- reading whole commands back

  /** What may come after a pipeline: nothing, or one of `)`, `&` and `;`. */
  predicate FollowPipe(rest: string) {
    |rest| > 0 ==> rest[0] in {')', '&', ';'}
  }

  /** What may come after a line: nothing, or `)`. */
  predicate FollowLine(rest: string) {
    |rest| > 0 ==> rest[0] == ')'
  }

  lemma Ahead(s: string, i: nat, rest: string, toks: set<char>)
    requires At(s, i, rest) && Tight(rest)
    ensures i <= |s| && Skip(s, i) == i && (Peek(s, i, toks) <==> |rest| > 0 && rest[0] in toks)
  {
    HeadAt(s, i, rest);
  }

  /** The result of a parser that has read the print of `t` and stopped before `rest`. */
  ghost predicate ReadBack(s: string, r: Result<Cmd>, end: nat, t: Tree, rest: string) {
    r.Ok? && r.pos == end && View(s, r.value) == t && At(s, end, rest)
  }

  lemma PlainBack(s: string, i: nat, args: seq<string>, want: seq<PlainRedir>, rest: string)
    requires At(s, i, PrintArgs(args) + (PrintRedirs(want) + rest)) && Follow(rest) && RedirsOk(want)
    requires WellFormed(TExec(args))
    ensures i <= |s|
    ensures ReadBack(s, ParseExec(s, i), i + |PrintArgs(args)| + |PrintRedirs(want)|, WrapTree(TExec(args), want), rest)
  {
    hide At, GetToken, Follow, ParseArgs, PrintRedirs, Reads, EndsWord, Wrap, Text, WrapTree, View;
    var tail := PrintRedirs(want) + rest;
    if |args| == 0 {
      assert PrintArgs(args) + tail == tail;
      RedirsEndWord(want, rest);
      Ahead(s, i, tail, {'('});
      RedirsBack(s, i, want, rest);
      var rds := ParseRedirs(s, i);
      hide ParseRedirs;
      ArgsDone(s, rds.pos, [], rds.value, rest);
      PlainView(s, [], rds.value, args, want);
    } else {
      ArgsHead(args, tail);
      WordAhead(s, i, PrintArgs(args) + tail);
      hide ParseRedirs, Peek, PrintArgs;
      var spans, rds := ArgsBack(s, i, [], [], args, want, rest);
      assert [] + spans == spans && [] + rds == rds;
      PlainView(s, spans, rds, args, want);
    }
  }

  lemma PlainView(s: string, spans: seq<Span>, rds: seq<Redirection>, args: seq<string>, want: seq<PlainRedir>)
    requires Texts(s, spans) == args && Reads(s, rds, want)
    ensures View(s, Wrap(Exec(spans), rds)) == WrapTree(TExec(args), want)
  {
    ViewWrap(s, Exec(spans), rds, want);
  }

  lemma PrintParen(t: Tree, level: nat)
    ensures Print(t, level) == if Own(t) < level then "(" + Print(t, 0) + ")" else Print(t, 0)
  {
  }

  /** The unfoldings of the mutually recursive parsers that the proofs below use. */
  lemma BlockStep(s: string, i: nat, open: Lexed, body: Result<Cmd>, close: Lexed, rs: Result<seq<Redirection>>)
    requires i <= |s| && Peek(s, i, {'('}) && open == GetToken(s, i) && open.next <= |s|
    requires body == ParseLine(s, open.next) && body.Ok? && body.pos <= |s| && Peek(s, body.pos, {')'})
    requires close == GetToken(s, body.pos) && close.next <= |s| && rs == ParseRedirs(s, close.next) && rs.Ok?
    ensures ParseExec(s, i) == Ok(Wrap(body.value, rs.value), rs.pos)
  {
  }

  lemma PipeStep(s: string, i: nat, left: Result<Cmd>, bar: Lexed, right: Result<Cmd>)
    requires i <= |s| && left == ParseExec(s, i) && left.Ok? && left.pos <= |s| && Peek(s, left.pos, {'|'})
    requires bar == GetToken(s, left.pos) && bar.next <= |s| && right == ParsePipe(s, bar.next) && right.Ok?
    ensures ParsePipe(s, i) == Ok(Pipe(left.value, right.value), right.pos)
  {
  }

  lemma PipeEnd(s: string, i: nat, left: Result<Cmd>)
    requires i <= |s| && left == ParseExec(s, i) && left.Ok? && left.pos <= |s|
    requires !Peek(s, left.pos, {'|'}) && Skip(s, left.pos) == left.pos
    ensures ParsePipe(s, i) == left
  {
  }

  lemma LineStep(s: string, i: nat, first: Result<Cmd>, cmd: Result<Cmd>, semi: Lexed, rest: Result<Cmd>)
    requires i <= |s| && first == ParsePipe(s, i) && first.Ok? && first.pos <= |s|
    requires cmd == ParseBacks(s, first.pos, first.value) && cmd.Ok? && cmd.pos <= |s| && Peek(s, cmd.pos, {';'})
    requires semi == GetToken(s, cmd.pos) && semi.next <= |s| && rest == ParseLine(s, semi.next) && rest.Ok?
    ensures ParseLine(s, i) == Ok(List(cmd.value, rest.value), rest.pos)
  {
  }

  lemma LineEnd(s: string, i: nat, first: Result<Cmd>, cmd: Result<Cmd>)
    requires i <= |s| && first == ParsePipe(s, i) && first.Ok? && first.pos <= |s|
    requires cmd == ParseBacks(s, first.pos, first.value) && cmd.Ok? && cmd.pos <= |s|
    requires !Peek(s, cmd.pos, {';'}) && Skip(s, cmd.pos) == cmd.pos
    ensures ParseLine(s, i) == cmd
  {
  }

  lemma BackStep(s: string, i: nat, cmd: Cmd)
    requires i < |s| && Peek(s, i, {'&'}) && GetToken(s, i).next == i + 1
    ensures ParseBacks(s, i, cmd) == ParseBacks(s, i + 1, Back(cmd))
  {
  }

  lemma BackEnd(s: string, i: nat, cmd: Cmd)
    requires i <= |s| && !Peek(s, i, {'&'}) && Skip(s, i) == i
    ensures ParseBacks(s, i, cmd) == Ok(cmd, i)
  {
  }

  /** No print starts with white space. */
  lemma {:induction false} PrintTight(t: Tree, level: nat)
    requires WellFormed(t)
    ensures Tight(Print(t, level))
    decreases Height(t), if Own(t) < level then 1 else 0
  {
    if Own(t) >= level {
      match t
      case TList(l, r) => PrintTight(l, 1);
      case TBack(b) => PrintTight(b, 1);
      case TPipe(l, r) => PrintTight(l, 3);
      case TRedir(b, file, out) => PrintTight(b, 3);
      case TExec(args) => if |args| > 0 { ArgsHead(args, ""); assert PrintArgs(args) + "" == PrintArgs(args); }
    }
  }

  lemma TightThen(a: string, b: string)
    requires Tight(a) && Tight(b)
    ensures Tight(a + b)
  {
    if |a| == 0 { assert a + b == b; }
  }

  lemma {:induction false} ExecBack(s: string, i: nat, t: Tree, rest: string)
    requires At(s, i, Print(t, 3) + rest) && WellFormed(t) && Follow(rest)
    ensures i <= |s| && ReadBack(s, ParseExec(s, i), i + |Print(t, 3)|, t, rest)
    decreases Height(t), if Own(t) < 3 then 5 else 0
  {
    hide At, Follow, GetToken, Peek, ParseExec, ParseRedirs, ReadBack, Print, PrintRedirs, Tight, EndsWord;
    var b, want := BaseOf(t), RedirsOf(t);
    PrintUnwrapped(t);
    Unwrap(t);
    Associate(Print(b, 3), PrintRedirs(want), rest);
    if b.TExec? {
      PrintPlain(b);
      PlainBack(s, i, b.args, want, rest);
    } else {
      BlockBack(s, i, b, want, rest);
    }
  }

  lemma PrintPlain(t: Tree)
    requires t.TExec?
    ensures Print(t, 3) == PrintArgs(t.args)
  {
  }

  lemma {:induction false} BlockBack(s: string, i: nat, b: Tree, want: seq<PlainRedir>, rest: string)
    requires At(s, i, Print(b, 3) + (PrintRedirs(want) + rest)) && WellFormed(b) && Own(b) < 3
    requires RedirsOk(want) && Follow(rest)
    ensures i <= |s|
    ensures ReadBack(s, ParseExec(s, i), i + |Print(b, 3)| + |PrintRedirs(want)|, WrapTree(b, want), rest)
    decreases Height(b), 4
  {
    hide At, Follow, GetToken, Peek, ParseExec, ParseLine, ParseRedirs, Print, PrintRedirs, EndsWord, Reads, View, Text, Wrap;
    PrintParen(b, 3);
    var tail := PrintRedirs(want) + rest;
    var body := Print(b, 0);
    Parens(body, tail);
    PrintTight(b, 0);
    TightThen(body, [')'] + tail);
    SymbolToken(s, i, '(', body + ([')'] + tail));
    Ahead(s, i, ['('] + (body + ([')'] + tail)), {'('});
    LineBack(s, i + 1, b, [')'] + tail);
    var j := i + 1 + |body|;
    RedirsEndWord(want, rest);
    SymbolToken(s, j, ')', tail);
    Ahead(s, j, [')'] + tail, {')'});
    RedirsBack(s, j + 1, want, rest);
    var rds := ParseRedirs(s, j + 1);
    BlockStep(s, i, GetToken(s, i), ParseLine(s, i + 1), GetToken(s, j), rds);
    ViewWrap(s, ParseLine(s, i + 1).value, rds.value, want);
  }

  lemma Parens(body: string, tail: string)
    ensures "(" + body + ")" + tail == ['('] + (body + ([')'] + tail))
  {
  }

  lemma {:induction false} PipeBack(s: string, i: nat, t: Tree, rest: string)
    requires At(s, i, Print(t, 2) + rest) && WellFormed(t) && FollowPipe(rest)
    ensures i <= |s| && ReadBack(s, ParsePipe(s, i), i + |Print(t, 2)|, t, rest)
    decreases Height(t), if Own(t) < 2 then 6 else 1
  {
    hide At, GetToken, Peek, ParseExec, ParsePipe, Print;
    if t.TPipe? {
      var right := Print(t.right, 2) + rest;
      PrintPipe(t, rest);
      ExecBack(s, i, t.left, ['|'] + right);
      var j := i + |Print(t.left, 3)|;
      PrintTight(t.right, 2);
      TightThen(Print(t.right, 2), rest);
      SymbolToken(s, j, '|', right);
      Ahead(s, j, ['|'] + right, {'|'});
      PipeBack(s, j + 1, t.right, rest);
      PipeStep(s, i, ParseExec(s, i), GetToken(s, j), ParsePipe(s, j + 1));
    } else {
      PrintSame(t, 2, 3);
      ExecBack(s, i, t, rest);
      Ahead(s, i + |Print(t, 3)|, rest, {'|'});
      PipeEnd(s, i, ParseExec(s, i));
    }
  }

  lemma PrintPipe(t: Tree, rest: string)
    requires t.TPipe?
    ensures Print(t, 2) + rest == Print(t.left, 3) + (['|'] + (Print(t.right, 2) + rest))
    ensures |Print(t, 2)| == |Print(t.left, 3)| + 1 + |Print(t.right, 2)|
  {
  }

  lemma PrintSame(t: Tree, a: nat, b: nat)
    requires (Own(t) < a <==> Own(t) < b)
    ensures Print(t, a) == Print(t, b)
  {
  }

  /** A pipeline and the `&`s after it: parsepipe reads the pipeline, and the loop of parseline
      goes on as if it had just wrapped the command in its background nodes. */
  lemma {:induction false} AmpBack(s: string, i: nat, t: Tree, rest: string) returns (c: Cmd)
    requires At(s, i, Print(t, 1) + rest) && WellFormed(t) && FollowPipe(rest)
    ensures i + |Print(t, 1)| <= |s| && At(s, i + |Print(t, 1)|, rest) && View(s, c) == t
    ensures var first := ParsePipe(s, i);
            first.Ok? && first.pos <= |s| &&
            ParseBacks(s, first.pos, first.value) == ParseBacks(s, i + |Print(t, 1)|, c)
    decreases Height(t), if Own(t) < 1 then 7 else 2
  {
    hide GetToken, Peek, ParsePipe, ParseBacks, Print, At;
    if t.TBack? {
      PrintBack(t, rest);
      c := AmpBack(s, i, t.body, ['&'] + rest);
      var j := i + |Print(t.body, 1)|;
      SymbolToken(s, j, '&', rest);
      Ahead(s, j, ['&'] + rest, {'&'});
      BackStep(s, j, c);
      c := Back(c);
    } else {
      PrintSame(t, 1, 2);
      PipeBack(s, i, t, rest);
      Ahead(s, i + |Print(t, 2)|, rest, {});
      c := ParsePipe(s, i).value;
    }
  }

  lemma PrintBack(t: Tree, rest: string)
    requires t.TBack?
    ensures Print(t, 1) + rest == Print(t.body, 1) + (['&'] + rest)
    ensures |Print(t, 1)| == |Print(t.body, 1)| + 1
  {
  }

  lemma {:induction false} LineBack(s: string, i: nat, t: Tree, rest: string)
    requires At(s, i, Print(t, 0) + rest) && WellFormed(t) && FollowLine(rest)
    ensures i <= |s| && ReadBack(s, ParseLine(s, i), i + |Print(t, 0)|, t, rest)
    decreases Height(t), 3
  {
    hide GetToken, Peek, ParsePipe, ParseLine, ParseBacks, Print, At;
    if t.TList? {
      var right := Print(t.right, 0) + rest;
      PrintList(t, rest);
      var c := AmpBack(s, i, t.left, [';'] + right);
      var j := i + |Print(t.left, 1)|;
      Ahead(s, j, [';'] + right, {'&'});
      Ahead(s, j, [';'] + right, {';'});
      BackEnd(s, j, c);
      PrintTight(t.right, 0);
      TightThen(Print(t.right, 0), rest);
      SymbolToken(s, j, ';', right);
      LineBack(s, j + 1, t.right, rest);
      var first := ParsePipe(s, i);
      LineStep(s, i, first, ParseBacks(s, first.pos, first.value), GetToken(s, j), ParseLine(s, j + 1));
    } else {
      PrintSame(t, 0, 1);
      var c := AmpBack(s, i, t, rest);
      var j := i + |Print(t, 1)|;
      Ahead(s, j, rest, {'&'});
      Ahead(s, j, rest, {';'});
      BackEnd(s, j, c);
      var first := ParsePipe(s, i);
      LineEnd(s, i, first, ParseBacks(s, first.pos, first.value));
    }
  }

  lemma PrintList(t: Tree, rest: string)
    requires t.TList?
    ensures Print(t, 0) + rest == Print(t.left, 1) + ([';'] + (Print(t.right, 0) + rest))
    ensures |Print(t, 0)| == |Print(t.left, 1)| + 1 + |Print(t.right, 0)|
  {
  }

  /** Parsing a printed command gives the command back. */
  lemma RoundTrip(t: Tree)
    requires WellFormed(t)
    ensures var s := Print(t, 0);
            ParseCmd(s).Ok? && View(s, ParseCmd(s).value) == t
  {
    var s := Print(t, 0);
    assert s + "" == s && s[0..] == s;
    LineBack(s, 0, t, "");
  }
}
