/** `>>` in sh.c: gettoken knows it, but parseredirs treats it as `>`. */
module ShellAppend {
  import opened Shell

  /** A `>>` starts at q: two of them, and not the second half of another. */
  predicate AppendAt(s: string, q: nat) {
    q + 1 < |s| && s[q] == '>' && s[q + 1] == '>' && (q > 0 ==> s[q - 1] != '>')
  }

  /** The input with that `>>` replaced by `>` and a space. */
  function Single(s: string, q: nat): (t: string)
    requires AppendAt(s, q)
    ensures |t| == |s|
  {
    s[q + 1 := ' ']
  }

  /** Every position at which a parser can be: all but the middle of the `>>`. */
  predicate At(s: string, q: nat, i: nat) {
    i <= |s| && i != q + 1
  }

  lemma {:induction false} SkipAfter(s: string, q: nat, i: nat)
    requires AppendAt(s, q) && q + 2 <= i <= |s|
    ensures Skip(Single(s, q), i) == Skip(s, i)
    decreases |s| - i
  {
    if i < |s| && IsSpace(s[i]) {
      SkipAfter(s, q, i + 1);
    }
  }

  lemma {:induction false} SkipBefore(s: string, q: nat, i: nat)
    requires AppendAt(s, q) && i <= q
    ensures Skip(Single(s, q), i) == Skip(s, i) <= q
    decreases q - i
  {
    if IsSpace(s[i]) {
      SkipBefore(s, q, i + 1);
    }
  }

  lemma SkipSame(s: string, q: nat, i: nat)
    requires AppendAt(s, q) && At(s, q, i)
    ensures Skip(Single(s, q), i) == Skip(s, i) && At(s, q, Skip(s, i))
  {
    if i <= q {
      SkipBefore(s, q, i);
    } else {
      SkipAfter(s, q, i);
    }
  }

  lemma {:induction false} WordSame(s: string, q: nat, i: nat)
    requires AppendAt(s, q) && At(s, q, i)
    ensures WordEnd(Single(s, q), i) == WordEnd(s, i) && At(s, q, WordEnd(s, i))
    decreases |s| - i
  {
    if i < |s| && !IsSpace(s[i]) && !IsSymbol(s[i]) {
      WordSame(s, q, i + 1);
    }
  }

  lemma PeekSame(s: string, q: nat, i: nat, toks: set<char>)
    requires AppendAt(s, q) && At(s, q, i)
    ensures Peek(Single(s, q), i, toks) == Peek(s, i, toks)
  {
    SkipSame(s, q, i);
  }

  /** The tokens are the same, except for the `>>` itself. */
  lemma TokenSame(s: string, q: nat, i: nat)
    requires AppendAt(s, q) && At(s, q, i)
    ensures At(s, q, GetToken(s, i).next) && GetToken(Single(s, q), i).next == GetToken(s, i).next
    ensures GetToken(s, i).tok.Append? || GetToken(Single(s, q), i) == GetToken(s, i)
    ensures GetToken(s, i).tok.Append? ==> GetToken(Single(s, q), i).tok in {Append, Symbol('>')}
  {
    var t := Single(s, q);
    SkipSame(s, q, i);
    var j := Skip(s, i);
    if j < |s| && IsSymbol(s[j]) {
      if j == q {
        SkipSame(s, q, q + 2);
        assert Skip(t, q + 1) == Skip(t, q + 2);
      } else {
        SymbolSame(s, q, j);
      }
    } else if j < |s| {
      WordSame(s, q, j);
      SkipSame(s, q, WordEnd(s, j));
    }
  }

  lemma SymbolSame(s: string, q: nat, j: nat)
    requires AppendAt(s, q) && At(s, q, j) && j < |s| && j != q
    ensures SymbolAt(Single(s, q), j) == SymbolAt(s, j) && At(s, q, SymbolAt(s, j).next)
  {
    if s[j] == '>' && j + 1 < |s| && s[j + 1] == '>' {
      SkipSame(s, q, j + 2);
    } else {
      SkipSame(s, q, j + 1);
    }
  }

  lemma {:induction false} RedirsSame(s: string, q: nat, i: nat)
    requires AppendAt(s, q) && At(s, q, i)
    ensures ParseRedirs(Single(s, q), i) == ParseRedirs(s, i)
    ensures ParseRedirs(s, i).Ok? ==> At(s, q, ParseRedirs(s, i).pos)
    decreases |s| - i
  {
    hide Skip, WordEnd, SymbolAt, GetToken, Peek, Single;
    PeekSame(s, q, i, {'<', '>'});
    SkipSame(s, q, i);
    if Peek(s, i, {'<', '>'}) {
      TokenSame(s, q, i);
      var op := GetToken(s, i);
      TokenSame(s, q, op.next);
      var file := GetToken(s, op.next);
      if file.tok.Word? {
        Advances(s, i);
        RedirsSame(s, q, file.next);
      }
    }
  }

  lemma Advances(s: string, i: nat)
    requires i <= |s|
    ensures GetToken(s, i).tok.End? || GetToken(s, i).next > i
  {
  }

  lemma {:induction false} ArgsSame(s: string, q: nat, i: nat, argv: seq<Span>, rs: seq<Redirection>)
    requires AppendAt(s, q) && At(s, q, i)
    ensures ParseArgs(Single(s, q), i, argv, rs) == ParseArgs(s, i, argv, rs)
    ensures ParseArgs(s, i, argv, rs).Ok? ==> At(s, q, ParseArgs(s, i, argv, rs).pos)
    decreases |s| - i
  {
    hide Skip, WordEnd, SymbolAt, GetToken, Peek, Single, ParseRedirs, Wrap;
    PeekSame(s, q, i, {'|', ')', '&', ';'});
    SkipSame(s, q, i);
    if !Peek(s, i, {'|', ')', '&', ';'}) {
      TokenSame(s, q, i);
      var arg := GetToken(s, i);
      if arg.tok.Word? && |argv| + 1 < MAXARGS {
        Advances(s, i);
        RedirsSame(s, q, arg.next);
        var more := ParseRedirs(s, arg.next);
        if more.Ok? {
          ArgsSame(s, q, more.pos, argv + [arg.span], rs + more.value);
        }
      }
    }
  }

  lemma {:induction false} ExecSame(s: string, q: nat, i: nat)
    requires AppendAt(s, q) && At(s, q, i)
    ensures ParseExec(Single(s, q), i) == ParseExec(s, i)
    ensures ParseExec(s, i).Ok? ==> At(s, q, ParseExec(s, i).pos)
    decreases |s| - i, 1
  {
    hide Skip, WordEnd, SymbolAt, GetToken, Peek, Single, ParseRedirs, ParseArgs, ParseBlock;
    PeekSame(s, q, i, {'('});
    SkipSame(s, q, i);
    if Peek(s, i, {'('}) {
      BlockSame(s, q, i);
    } else {
      RedirsSame(s, q, Skip(s, i));
      var rs := ParseRedirs(s, Skip(s, i));
      if rs.Ok? {
        ArgsSame(s, q, rs.pos, [], rs.value);
      }
    }
  }

  lemma {:induction false} BlockSame(s: string, q: nat, i: nat)
    requires AppendAt(s, q) && At(s, q, i) && Peek(s, i, {'('})
    ensures Peek(Single(s, q), i, {'('}) && ParseBlock(Single(s, q), i) == ParseBlock(s, i)
    ensures ParseBlock(s, i).Ok? ==> At(s, q, ParseBlock(s, i).pos)
    decreases |s| - i, 0
  {
    PeekAdvances(s, i, {'('});
    hide Skip, WordEnd, SymbolAt, GetToken, Peek, Single, ParseRedirs, ParseLine, Wrap;
    PeekSame(s, q, i, {'('});
    TokenSame(s, q, i);
    LineSame(s, q, GetToken(s, i).next);
    var body := ParseLine(s, GetToken(s, i).next);
    if body.Ok? {
      PeekSame(s, q, body.pos, {')'});
      if Peek(s, body.pos, {')'}) {
        TokenSame(s, q, body.pos);
        RedirsSame(s, q, GetToken(s, body.pos).next);
      }
    }
  }

  lemma PeekAdvances(s: string, i: nat, toks: set<char>)
    requires i <= |s| && Peek(s, i, toks)
    ensures GetToken(s, i).next > i
  {
  }

  lemma {:induction false} PipeSame(s: string, q: nat, i: nat)
    requires AppendAt(s, q) && At(s, q, i)
    ensures ParsePipe(Single(s, q), i) == ParsePipe(s, i)
    ensures ParsePipe(s, i).Ok? ==> At(s, q, ParsePipe(s, i).pos)
    decreases |s| - i, 2
  {
    hide Skip, WordEnd, SymbolAt, GetToken, Peek, Single, ParseExec;
    ExecSame(s, q, i);
    var left := ParseExec(s, i);
    if left.Ok? {
      PeekSame(s, q, left.pos, {'|'});
      SkipSame(s, q, left.pos);
      if Peek(s, left.pos, {'|'}) {
        PeekAdvances(s, left.pos, {'|'});
        TokenSame(s, q, left.pos);
        PipeSame(s, q, GetToken(s, left.pos).next);
      }
    }
  }

  lemma {:induction false} BacksSame(s: string, q: nat, i: nat, cmd: Cmd)
    requires AppendAt(s, q) && At(s, q, i)
    ensures ParseBacks(Single(s, q), i, cmd) == ParseBacks(s, i, cmd) && At(s, q, ParseBacks(s, i, cmd).pos)
    decreases |s| - i
  {
    hide Skip, WordEnd, SymbolAt, GetToken, Peek, Single;
    PeekSame(s, q, i, {'&'});
    SkipSame(s, q, i);
    if Peek(s, i, {'&'}) {
      PeekAdvances(s, i, {'&'});
      TokenSame(s, q, i);
      BacksSame(s, q, GetToken(s, i).next, Back(cmd));
    }
  }

  lemma {:induction false} LineSame(s: string, q: nat, i: nat)
    requires AppendAt(s, q) && At(s, q, i)
    ensures ParseLine(Single(s, q), i) == ParseLine(s, i)
    ensures ParseLine(s, i).Ok? ==> At(s, q, ParseLine(s, i).pos)
    decreases |s| - i, 3
  {
    hide Skip, WordEnd, SymbolAt, GetToken, Peek, Single, ParsePipe, ParseBacks;
    PipeSame(s, q, i);
    var first := ParsePipe(s, i);
    if first.Ok? {
      BacksSame(s, q, first.pos, first.value);
      var cmd := ParseBacks(s, first.pos, first.value);
      PeekSame(s, q, cmd.pos, {';'});
      SkipSame(s, q, cmd.pos);
      if Peek(s, cmd.pos, {';'}) {
        PeekAdvances(s, cmd.pos, {';'});
        TokenSame(s, q, cmd.pos);
        LineSame(s, q, GetToken(s, cmd.pos).next);
      }
    }
  }

  /** Whatever the input and wherever a `>>` stands in it, the parser returns the tree, position for
      position, that it returns for a `>` there. */
  lemma AppendIsOutput(s: string, q: nat)
    requires AppendAt(s, q)
    ensures ParseCmd(Single(s, q)) == ParseCmd(s)
  {
    hide Skip, Single, ParseLine;
    LineSame(s, q, 0);
    var line := ParseLine(s, 0);
    if line.Ok? {
      SkipSame(s, q, line.pos);
    }
  }
}
