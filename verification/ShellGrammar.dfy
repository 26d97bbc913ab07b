/** The command language of sh.c on tokens: a grammar, a recursive-descent parser, and a proof that
    the parser finds exactly the derivations of the grammar. */
module ShellGrammar {

  /** kind is what gettoken returns: the symbol itself, '+' for >>, 'a' for a word; q and eq are the
      ends of its text. */
  datatype Token = Token(kind: char, q: nat, eq: nat)

  datatype Mode = ReadOnly | WriteCreate

  datatype Redirection = Redirection(q: nat, eq: nat, mode: Mode, fd: nat)

  datatype Word = Word(q: nat, eq: nat)

  datatype Cmd =
    | Exec(args: seq<Word>)
    | Redir(cmd: Cmd, r: Redirection)
    | Pipe(left: Cmd, right: Cmd)
    | List(left: Cmd, right: Cmd)
    | Back(cmd: Cmd)

  /** The ways in which sh.c gives up. */
  datatype Error = MissingFile | MissingParen | Syntax | TooManyArgs | Leftovers

  const MAXARGS: nat := 10

  // ---------------------------------------------------------------- the grammar

  predicate IsRedir(t: Token) { t.kind == '<' || t.kind == '>' || t.kind == '+' }

  function RedirOf(op: Token, file: Token): Redirection {
    if op.kind == '<' then Redirection(file.q, file.eq, ReadOnly, 0) else Redirection(file.q, file.eq, WriteCreate, 1)
  }

  /** The first redirection is innermost. */
  function Wrap(cmd: Cmd, rs: seq<Redirection>): Cmd
    decreases |rs|
  {
    if rs == [] then cmd else Redir(Wrap(cmd, rs[..|rs| - 1]), rs[|rs| - 1])
  }

  /** Words and redirections, mixed in any way. */
  ghost predicate Mixed(args: seq<Word>, rs: seq<Redirection>, ts: seq<Token>)
    decreases |ts|
  {
    || (ts == [] && args == [] && rs == [])
    || (ts != [] && ts[0].kind == 'a' && args != [] && args[0] == Word(ts[0].q, ts[0].eq) && Mixed(args[1..], rs, ts[1..]))
    || (|ts| > 1 && IsRedir(ts[0]) && ts[1].kind == 'a' && rs != [] && rs[0] == RedirOf(ts[0], ts[1]) && Mixed(args, rs[1..], ts[2..]))
  }

  /** A simple command has at most nine words. */
  ghost predicate SimpleAs(cmd: Cmd, ts: seq<Token>, args: seq<Word>, rs: seq<Redirection>) {
    cmd == Wrap(Exec(args), rs) && |args| < MAXARGS && Mixed(args, rs, ts)
  }

  /** ( line ) with redirections behind it. */
  ghost predicate BlockAs(cmd: Cmd, ts: seq<Token>, k: nat, inner: Cmd, rs: seq<Redirection>)
    decreases |ts|, 0
  {
    && 0 < k < |ts| && ts[0].kind == '(' && ts[k].kind == ')' && cmd == Wrap(inner, rs)
    && LineOf(inner, ts[1..k]) && Mixed([], rs, ts[k + 1..])
  }

  ghost predicate ExecOf(cmd: Cmd, ts: seq<Token>)
    decreases |ts|, 1
  {
    || (exists args: seq<Word>, rs: seq<Redirection> :: SimpleAs(cmd, ts, args, rs))
    || (exists k: nat, inner: Cmd, rs: seq<Redirection> :: BlockAs(cmd, ts, k, inner, rs))
  }

  ghost predicate PipeAt(cmd: Cmd, ts: seq<Token>, k: nat)
    decreases |ts|, 2
  {
    cmd.Pipe? && k < |ts| && ts[k].kind == '|' && ExecOf(cmd.left, ts[..k]) && PipeOf(cmd.right, ts[k + 1..])
  }

  ghost predicate PipeOf(cmd: Cmd, ts: seq<Token>)
    decreases |ts|, 3
  {
    ExecOf(cmd, ts) || exists k: nat :: PipeAt(cmd, ts, k)
  }

  /** A pipe with any number of & behind it. */
  ghost predicate BackOf(cmd: Cmd, ts: seq<Token>)
    decreases |ts|, 4
  {
    PipeOf(cmd, ts) || (cmd.Back? && ts != [] && ts[|ts| - 1].kind == '&' && BackOf(cmd.cmd, ts[..|ts| - 1]))
  }

  ghost predicate ListAt(cmd: Cmd, ts: seq<Token>, k: nat)
    decreases |ts|, 5
  {
    cmd.List? && k < |ts| && ts[k].kind == ';' && BackOf(cmd.left, ts[..k]) && LineOf(cmd.right, ts[k + 1..])
  }

  ghost predicate LineOf(cmd: Cmd, ts: seq<Token>)
    decreases |ts|, 6
  {
    BackOf(cmd, ts) || exists k: nat :: ListAt(cmd, ts, k)
  }

  // ---------------------------------------------------------------- the parser

  datatype Result = Ok(cmd: Cmd, rest: seq<Token>) | Err(error: Error)

  function Starts(ts: seq<Token>, kind: char): bool { ts != [] && ts[0].kind == kind }

  datatype Redirs = Redirs(rs: seq<Redirection>, rest: seq<Token>) | NoFile

  /** parseredirs: behind rs. */
  function ParseRedirs(rs: seq<Redirection>, ts: seq<Token>): (r: Redirs)
    ensures r.Redirs? ==> |r.rest| <= |ts|
    decreases |ts|
  {
    if ts == [] || !IsRedir(ts[0]) then Redirs(rs, ts)
    else if !Starts(ts[1..], 'a') then NoFile
    else ParseRedirs(rs + [RedirOf(ts[0], ts[1])], ts[2..])
  }

  predicate EndsArgs(ts: seq<Token>) {
    ts == [] || ts[0].kind == '|' || ts[0].kind == ')' || ts[0].kind == '&' || ts[0].kind == ';'
  }

  /** The loop of parseexec. */
  function ParseArgs(args: seq<Word>, rs: seq<Redirection>, ts: seq<Token>): (r: Result)
    ensures r.Ok? ==> |r.rest| <= |ts|
    decreases |ts|
  {
    if EndsArgs(ts) then Ok(Wrap(Exec(args), rs), ts)
    else if ts[0].kind != 'a' then Err(Syntax)
    else if |args| + 1 >= MAXARGS then Err(TooManyArgs)
    else
      match ParseRedirs(rs, ts[1..])
      case NoFile => Err(MissingFile)
      case Redirs(more, rest) => ParseArgs(args + [Word(ts[0].q, ts[0].eq)], more, rest)
  }

  function ParseBlock(ts: seq<Token>): (r: Result)
    requires Starts(ts, '(')
    ensures r.Ok? ==> |r.rest| < |ts|
    decreases |ts|, 0
  {
    match ParseLine(ts[1..])
    case Err(e) => Err(e)
    case Ok(cmd, rest) =>
      if !Starts(rest, ')') then Err(MissingParen)
      else
        match ParseRedirs([], rest[1..])
        case NoFile => Err(MissingFile)
        case Redirs(rs, rest2) => Ok(Wrap(cmd, rs), rest2)
  }

  function ParseExec(ts: seq<Token>): (r: Result)
    ensures r.Ok? ==> |r.rest| <= |ts|
    decreases |ts|, 1
  {
    if Starts(ts, '(') then ParseBlock(ts)
    else
      match ParseRedirs([], ts)
      case NoFile => Err(MissingFile)
      case Redirs(rs, rest) => ParseArgs([], rs, rest)
  }

  function ParsePipe(ts: seq<Token>): (r: Result)
    ensures r.Ok? ==> |r.rest| <= |ts|
    decreases |ts|, 2
  {
    match ParseExec(ts)
    case Err(e) => Err(e)
    case Ok(cmd, rest) =>
      if !Starts(rest, '|') then Ok(cmd, rest)
      else
        match ParsePipe(rest[1..])
        case Err(e) => Err(e)
        case Ok(right, rest2) => Ok(Pipe(cmd, right), rest2)
  }

  function ParseBacks(cmd: Cmd, ts: seq<Token>): (r: Result)
    ensures r.Ok? && |r.rest| <= |ts| && !Starts(r.rest, '&')
    decreases |ts|
  {
    if Starts(ts, '&') then ParseBacks(Back(cmd), ts[1..]) else Ok(cmd, ts)
  }

  function ParseLine(ts: seq<Token>): (r: Result)
    ensures r.Ok? ==> |r.rest| <= |ts|
    decreases |ts|, 3
  {
    match ParsePipe(ts)
    case Err(e) => Err(e)
    case Ok(cmd, rest) =>
      var b := ParseBacks(cmd, rest);
      if !Starts(b.rest, ';') then b
      else
        match ParseLine(b.rest[1..])
        case Err(e) => Err(e)
        case Ok(right, rest2) => Ok(List(b.cmd, right), rest2)
  }

  /** parsecmd: the whole line must be used up. */
  function ParseCmd(ts: seq<Token>): Result {
    match ParseLine(ts)
    case Err(e) => Err(e)
    case Ok(cmd, rest) => if rest == [] then Ok(cmd, []) else Err(Leftovers)
  }

  // ---------------------------------------------------------------- what the parser accepts is in the grammar

  lemma {:induction false} MixedConcat(a1: seq<Word>, r1: seq<Redirection>, c1: seq<Token>, a2: seq<Word>,
                                       r2: seq<Redirection>, c2: seq<Token>)
    requires Mixed(a1, r1, c1) && Mixed(a2, r2, c2)
    ensures Mixed(a1 + a2, r1 + r2, c1 + c2)
    decreases |c1|
  {
    if c1 == [] {
      assert a1 + a2 == a2 && r1 + r2 == r2 && c1 + c2 == c2;
    } else if c1[0].kind == 'a' {
      MixedConcat(a1[1..], r1, c1[1..], a2, r2, c2);
      assert (a1 + a2)[1..] == a1[1..] + a2 && (c1 + c2)[1..] == c1[1..] + c2;
    } else {
      MixedConcat(a1, r1[1..], c1[2..], a2, r2, c2);
      assert (r1 + r2)[1..] == r1[1..] + r2 && (c1 + c2)[2..] == c1[2..] + c2;
    }
  }

  lemma MixedRedir(op: Token, file: Token)
    requires IsRedir(op) && file.kind == 'a'
    ensures Mixed([], [RedirOf(op, file)], [op, file])
  {
    assert [op, file][2..] == [] && [RedirOf(op, file)][1..] == [];
    assert Mixed([], [], []);
  }

  lemma MixedWord(t: Token)
    requires t.kind == 'a'
    ensures Mixed([Word(t.q, t.eq)], [], [t])
  {
    assert [t][1..] == [] && [Word(t.q, t.eq)][1..] == [];
    assert Mixed([], [], []);
  }

  lemma {:induction false} SoundRedirs(rs: seq<Redirection>, ts: seq<Token>) returns (more: seq<Redirection>, c: seq<Token>)
    requires ParseRedirs(rs, ts).Redirs?
    ensures ParseRedirs(rs, ts).rs == rs + more && ts == c + ParseRedirs(rs, ts).rest && Mixed([], more, c)
    decreases |ts|
  {
    if ts == [] || !IsRedir(ts[0]) {
      more, c := [], [];
    } else {
      var r := RedirOf(ts[0], ts[1]);
      more, c := SoundRedirs(rs + [r], ts[2..]);
      MixedRedir(ts[0], ts[1]);
      var none: seq<Word> := [];
      MixedConcat(none, [r], [ts[0], ts[1]], none, more, c);
      assert none + none == none;
      more, c := [r] + more, [ts[0], ts[1]] + c;
    }
  }

  lemma MakeSimple(args: seq<Word>, rs: seq<Redirection>, ts: seq<Token>)
    requires Mixed(args, rs, ts) && |args| < MAXARGS
    ensures ExecOf(Wrap(Exec(args), rs), ts)
  {
    assert SimpleAs(Wrap(Exec(args), rs), ts, args, rs);
    hide Mixed, BlockAs;
  }

  lemma MakeBlock(open: Token, inner: Cmd, inside: seq<Token>, close: Token, rs: seq<Redirection>, c: seq<Token>)
    requires open.kind == '(' && close.kind == ')' && LineOf(inner, inside) && Mixed([], rs, c)
    ensures ExecOf(Wrap(inner, rs), [open] + inside + [close] + c)
  {
    hide Mixed, LineOf;
    var ts, k := [open] + inside + [close] + c, 1 + |inside|;
    assert ts[1..k] == inside && ts[k + 1..] == c;
    assert BlockAs(Wrap(inner, rs), ts, k, inner, rs);
  }

  lemma MakePipe(left: Cmd, c: seq<Token>, bar: Token, right: Cmd, d: seq<Token>)
    requires bar.kind == '|' && ExecOf(left, c) && PipeOf(right, d)
    ensures PipeOf(Pipe(left, right), c + [bar] + d)
  {
    hide ExecOf;
    var ts, k := c + [bar] + d, |c|;
    assert ts[..k] == c && ts[k + 1..] == d;
    assert PipeAt(Pipe(left, right), ts, k);
  }

  lemma MakeBack(cmd: Cmd, c: seq<Token>, amp: Token)
    requires amp.kind == '&' && BackOf(cmd, c)
    ensures BackOf(Back(cmd), c + [amp])
  {
    hide PipeOf;
    assert (c + [amp])[..|c|] == c;
  }

  lemma MakeList(left: Cmd, c: seq<Token>, semi: Token, right: Cmd, d: seq<Token>)
    requires semi.kind == ';' && BackOf(left, c) && LineOf(right, d)
    ensures LineOf(List(left, right), c + [semi] + d)
  {
    hide BackOf;
    var ts, k := c + [semi] + d, |c|;
    assert ts[..k] == c && ts[k + 1..] == d;
    assert ListAt(List(left, right), ts, k);
  }

  lemma {:induction false} SoundArgs(args: seq<Word>, rs: seq<Redirection>, ts: seq<Token>,
                                     seen: seq<Token>) returns (c: seq<Token>)
    requires Mixed(args, rs, seen) && |args| < MAXARGS && ParseArgs(args, rs, ts).Ok?
    ensures ts == c + ParseArgs(args, rs, ts).rest && ExecOf(ParseArgs(args, rs, ts).cmd, seen + c)
    decreases |ts|
  {
    hide Mixed, ExecOf, ParseRedirs;
    if EndsArgs(ts) {
      c := [];
      assert seen + c == seen;
      MakeSimple(args, rs, seen);
    } else {
      var w := Word(ts[0].q, ts[0].eq);
      var more, c1 := SoundRedirs(rs, ts[1..]);
      MixedWord(ts[0]);
      MixedConcat([w], [], [ts[0]], [], more, c1);
      assert [w] + [] == [w] && [] + more == more;
      MixedConcat(args, rs, seen, [w], more, [ts[0]] + c1);
      var c2 := SoundArgs(args + [w], rs + more, ParseRedirs(rs, ts[1..]).rest, seen + ([ts[0]] + c1));
      assert seen + ([ts[0]] + c1) + c2 == seen + ([ts[0]] + c1 + c2);
      c := [ts[0]] + c1 + c2;
    }
  }

  lemma {:induction false} SoundBlock(ts: seq<Token>) returns (c: seq<Token>)
    requires Starts(ts, '(') && ParseBlock(ts).Ok?
    ensures ts == c + ParseBlock(ts).rest && ExecOf(ParseBlock(ts).cmd, c)
    decreases |ts|, 0
  {
    hide Mixed, ExecOf, LineOf, ParseRedirs, ParseLine;
    var inside := SoundLine(ts[1..]);
    var line := ParseLine(ts[1..]);
    var rs, c1 := SoundRedirs([], line.rest[1..]);
    assert [] + rs == rs;
    MakeBlock(ts[0], line.cmd, inside, line.rest[0], rs, c1);
    c := [ts[0]] + inside + [line.rest[0]] + c1;
  }

  lemma {:induction false} SoundExec(ts: seq<Token>) returns (c: seq<Token>)
    requires ParseExec(ts).Ok?
    ensures ts == c + ParseExec(ts).rest && ExecOf(ParseExec(ts).cmd, c)
    decreases |ts|, 1
  {
    hide Mixed, ExecOf, ParseRedirs, ParseBlock, ParseArgs;
    if Starts(ts, '(') {
      c := SoundBlock(ts);
    } else {
      var rs, c1 := SoundRedirs([], ts);
      assert [] + rs == rs;
      var c2 := SoundArgs([], rs, ParseRedirs([], ts).rest, c1);
      c := c1 + c2;
    }
  }

  lemma {:induction false} SoundPipe(ts: seq<Token>) returns (c: seq<Token>)
    requires ParsePipe(ts).Ok?
    ensures ts == c + ParsePipe(ts).rest && PipeOf(ParsePipe(ts).cmd, c)
    decreases |ts|, 2
  {
    hide ExecOf, ParseExec;
    c := SoundExec(ts);
    var left := ParseExec(ts);
    if Starts(left.rest, '|') {
      var d := SoundPipe(left.rest[1..]);
      MakePipe(left.cmd, c, left.rest[0], ParsePipe(left.rest[1..]).cmd, d);
      c := c + [left.rest[0]] + d;
    }
  }

  lemma {:induction false} SoundBacks(cmd: Cmd, ts: seq<Token>, seen: seq<Token>) returns (c: seq<Token>)
    requires BackOf(cmd, seen)
    ensures ts == c + ParseBacks(cmd, ts).rest && BackOf(ParseBacks(cmd, ts).cmd, seen + c)
    decreases |ts|
  {
    hide BackOf;
    if Starts(ts, '&') {
      MakeBack(cmd, seen, ts[0]);
      c := SoundBacks(Back(cmd), ts[1..], seen + [ts[0]]);
      assert seen + [ts[0]] + c == seen + ([ts[0]] + c);
      c := [ts[0]] + c;
    } else {
      c := [];
      assert seen + c == seen;
    }
  }

  lemma {:induction false} SoundLine(ts: seq<Token>) returns (c: seq<Token>)
    requires ParseLine(ts).Ok?
    ensures ts == c + ParseLine(ts).rest && LineOf(ParseLine(ts).cmd, c)
    decreases |ts|, 3
  {
    hide PipeOf, ParsePipe, ParseBacks;
    var c1 := SoundPipe(ts);
    var first := ParsePipe(ts);
    var c2 := SoundBacks(first.cmd, first.rest, c1);
    var b := ParseBacks(first.cmd, first.rest);
    c := c1 + c2;
    if Starts(b.rest, ';') {
      var d := SoundLine(b.rest[1..]);
      MakeList(b.cmd, c, b.rest[0], ParseLine(b.rest[1..]).cmd, d);
      c := c + [b.rest[0]] + d;
    }
  }

  // ---------------------------------------------------------------- what is in the grammar is accepted

  lemma {:induction false} CompleteRedirs(rs0: seq<Redirection>, rs: seq<Redirection>, c: seq<Token>, rest: seq<Token>)
    requires Mixed([], rs, c) && (rest != [] ==> !IsRedir(rest[0]))
    ensures ParseRedirs(rs0, c + rest) == Redirs(rs0 + rs, rest)
    decreases |c|
  {
    if c == [] {
      assert c + rest == rest && rs0 + rs == rs0;
    } else {
      CompleteRedirs(rs0 + [rs[0]], rs[1..], c[2..], rest);
      assert (c + rest)[2..] == c[2..] + rest && rs0 + [rs[0]] + rs[1..] == rs0 + rs;
    }
  }

  lemma ArgsEnd(args: seq<Word>, rs: seq<Redirection>, ts: seq<Token>)
    requires EndsArgs(ts)
    ensures ParseRedirs(rs, ts) == Redirs(rs, ts) && ParseArgs(args, rs, ts) == Ok(Wrap(Exec(args), rs), ts)
  {
  }

  lemma ArgsWord(args: seq<Word>, rs: seq<Redirection>, ts: seq<Token>)
    requires Starts(ts, 'a') && |args| + 1 < MAXARGS
    ensures ParseRedirs(rs, ts) == Redirs(rs, ts)
    ensures var r := ParseRedirs(rs, ts[1..]);
            r.Redirs? ==> ParseArgs(args, rs, ts) == ParseArgs(args + [Word(ts[0].q, ts[0].eq)], r.rs, r.rest)
  {
  }

  lemma RedirsStep(rs: seq<Redirection>, ts: seq<Token>)
    requires |ts| > 1 && IsRedir(ts[0]) && ts[1].kind == 'a'
    ensures ParseRedirs(rs, ts) == ParseRedirs(rs + [RedirOf(ts[0], ts[1])], ts[2..])
  {
  }

  /** parseexec from any point of its loop on. */
  lemma {:induction false} CompleteArgs(args0: seq<Word>, rs0: seq<Redirection>, args: seq<Word>,
                                        rs: seq<Redirection>, c: seq<Token>, rest: seq<Token>)
    requires Mixed(args, rs, c) && EndsArgs(rest) && |args0| + |args| < MAXARGS
    ensures var r := ParseRedirs(rs0, c + rest);
            r.Redirs? && ParseArgs(args0, r.rs, r.rest) == Ok(Wrap(Exec(args0 + args), rs0 + rs), rest)
    decreases |c|
  {
    hide Wrap, ParseRedirs, ParseArgs;
    if c == [] {
      ArgsEnd(args0, rs0, rest);
      assert c + rest == rest && rs0 + rs == rs0 && args0 + args == args0;
    } else if c[0].kind == 'a' {
      ArgsWord(args0, rs0, c + rest);
      CompleteArgs(args0 + [args[0]], rs0, args[1..], rs, c[1..], rest);
      assert (c + rest)[1..] == c[1..] + rest && args0 + [args[0]] + args[1..] == args0 + args;
    } else {
      RedirsStep(rs0, c + rest);
      CompleteArgs(args0, rs0 + [rs[0]], args, rs[1..], c[2..], rest);
      assert (c + rest)[2..] == c[2..] + rest && rs0 + [rs[0]] + rs[1..] == rs0 + rs;
    }
  }

  lemma MixedStart(args: seq<Word>, rs: seq<Redirection>, c: seq<Token>)
    requires Mixed(args, rs, c)
    ensures !Starts(c, '(')
  {
  }

  lemma {:induction false} CompleteBlock(cmd: Cmd, c: seq<Token>, rest: seq<Token>, k: nat, inner: Cmd, rs: seq<Redirection>)
    requires BlockAs(cmd, c, k, inner, rs) && EndsArgs(rest)
    ensures ParseExec(c + rest) == Ok(cmd, rest)
    decreases |c|, 0
  {
    hide Mixed, LineOf, ParseLine, ParseRedirs;
    var tail := c[k + 1..];
    var after := [c[k]] + (tail + rest);
    CompleteLine(inner, c[1..k], after);
    assert (c + rest)[1..] == c[1..k] + after;
    assert after[1..] == tail + rest;
    CompleteRedirs([], rs, tail, rest);
    assert [] + rs == rs;
  }

  lemma {:induction false} CompleteExec(cmd: Cmd, c: seq<Token>, rest: seq<Token>)
    requires ExecOf(cmd, c) && EndsArgs(rest)
    ensures ParseExec(c + rest) == Ok(cmd, rest)
    decreases |c|, 1
  {
    hide Mixed, BlockAs, ParseArgs, ParseRedirs, ParseBlock;
    if args: seq<Word>, rs: seq<Redirection> :| SimpleAs(cmd, c, args, rs) {
      MixedStart(args, rs, c);
      assert !Starts(c + rest, '(');
      CompleteArgs([], [], args, rs, c, rest);
      assert [] + args == args && [] + rs == rs;
    } else {
      var k: nat, inner: Cmd, rs: seq<Redirection> :| BlockAs(cmd, c, k, inner, rs);
      CompleteBlock(cmd, c, rest, k, inner, rs);
    }
  }

  predicate EndsPipe(ts: seq<Token>) { EndsArgs(ts) && !Starts(ts, '|') }

  lemma {:induction false} CompletePipe(cmd: Cmd, c: seq<Token>, rest: seq<Token>)
    requires PipeOf(cmd, c) && EndsPipe(rest)
    ensures ParsePipe(c + rest) == Ok(cmd, rest)
    decreases |c|, 2
  {
    hide ExecOf, ParseExec;
    if ExecOf(cmd, c) {
      CompleteExec(cmd, c, rest);
    } else {
      var k: nat :| PipeAt(cmd, c, k);
      var after := [c[k]] + (c[k + 1..] + rest);
      CompleteExec(cmd.left, c[..k], after);
      assert c + rest == c[..k] + after && after[1..] == c[k + 1..] + rest;
      CompletePipe(cmd.right, c[k + 1..], rest);
    }
  }

  lemma {:induction false} CompleteBack(cmd: Cmd, c: seq<Token>, rest: seq<Token>)
    requires BackOf(cmd, c) && EndsPipe(rest)
    ensures ParsePipe(c + rest).Ok? && ParseBacks(ParsePipe(c + rest).cmd, ParsePipe(c + rest).rest) == ParseBacks(cmd, rest)
    decreases |c|, 3
  {
    hide PipeOf, ParsePipe;
    if PipeOf(cmd, c) {
      CompletePipe(cmd, c, rest);
    } else {
      var init, amp := c[..|c| - 1], c[|c| - 1];
      assert c + rest == init + ([amp] + rest) && ([amp] + rest)[1..] == rest;
      CompleteBack(cmd.cmd, init, [amp] + rest);
    }
  }

  predicate EndsLine(ts: seq<Token>) { ts == [] || ts[0].kind == ')' }

  lemma {:induction false} CompleteLine(cmd: Cmd, c: seq<Token>, rest: seq<Token>)
    requires LineOf(cmd, c) && EndsLine(rest)
    ensures ParseLine(c + rest) == Ok(cmd, rest)
    decreases |c|, 4
  {
    hide BackOf, ParsePipe;
    if BackOf(cmd, c) {
      CompleteBack(cmd, c, rest);
    } else {
      var k: nat :| ListAt(cmd, c, k);
      var after := [c[k]] + (c[k + 1..] + rest);
      CompleteBack(cmd.left, c[..k], after);
      assert c + rest == c[..k] + after && after[1..] == c[k + 1..] + rest;
      CompleteLine(cmd.right, c[k + 1..], rest);
    }
  }

  /** The parser accepts a line with a tree if and only if the grammar derives the line with that tree. */
  lemma ParsesIff(ts: seq<Token>, cmd: Cmd)
    ensures ParseCmd(ts) == Ok(cmd, []) <==> LineOf(cmd, ts)
  {
    hide LineOf, ParseLine;
    if ParseCmd(ts) == Ok(cmd, []) {
      var c := SoundLine(ts);
      assert c + [] == c;
    }
    if LineOf(cmd, ts) {
      CompleteLine(cmd, ts, []);
      assert ts + [] == ts;
    }
  }

  /** The grammar gives a line at most one tree. */
  lemma Unambiguous(ts: seq<Token>, c: Cmd, d: Cmd)
    requires LineOf(c, ts) && LineOf(d, ts)
    ensures c == d
  {
    ParsesIff(ts, c);
    ParsesIff(ts, d);
  }

  /** An & ends its command: with a word behind it the line is refused. */
  lemma WordBehindBack(x: Token, amp: Token, y: Token)
    requires x.kind == y.kind == 'a' && amp.kind == '&'
    ensures ParseCmd([x, amp, y]) == Err(Leftovers) && forall cmd :: !LineOf(cmd, [x, amp, y])
  {
    hide LineOf;
    var ts := [x, amp, y];
    assert ts[1..] == [amp, y] && ts[1..][1..] == [y];
    var cmd := Wrap(Exec([] + [Word(x.q, x.eq)]), []);
    assert ParseRedirs([], ts) == Redirs([], ts) && ParseRedirs([], ts[1..]) == Redirs([], ts[1..]);
    assert ParseArgs([] + [Word(x.q, x.eq)], [], ts[1..]) == Ok(cmd, ts[1..]);
    assert ParseExec(ts) == Ok(cmd, ts[1..]);
    assert ParsePipe(ts) == Ok(cmd, ts[1..]);
    assert ParseBacks(Back(cmd), [y]) == Ok(Back(cmd), [y]);
    assert ParseBacks(cmd, ts[1..]) == Ok(Back(cmd), [y]);
    assert ParseLine(ts) == Ok(Back(cmd), [y]);
    forall c ensures !LineOf(c, ts) { ParsesIff(ts, c); }
  }

  // ---------------------------------------------------------------- redirections

  /** What < , > and >> ask for: < opens its file for reading as descriptor 0, > and >> create theirs for writing
      as descriptor 1. */
  predicate AsksFor(op: Token, file: Token, r: Redirection) {
    && r.q == file.q && r.eq == file.eq
    && (op.kind == '<' ==> r.mode == ReadOnly && r.fd == 0)
    && (op.kind == '>' || op.kind == '+' ==> r.mode == WriteCreate && r.fd == 1)
  }

  /** A command with two redirections: the second is around the first, so it is carried out before it. */
  lemma TwoRedirections(w: Token, op1: Token, file1: Token, op2: Token, file2: Token) returns (r1: Redirection, r2: Redirection)
    requires w.kind == file1.kind == file2.kind == 'a' && op1.kind in "<>+" && op2.kind in "<>+"
    ensures AsksFor(op1, file1, r1) && AsksFor(op2, file2, r2)
    ensures ParseCmd([w, op1, file1, op2, file2]) == Ok(Redir(Redir(Exec([Word(w.q, w.eq)]), r1), r2), [])
  {
    hide LineOf, Mixed, Wrap, ParseCmd;
    r1, r2 := RedirOf(op1, file1), RedirOf(op2, file2);
    var ts, args, rs := [w, op1, file1, op2, file2], [Word(w.q, w.eq)], [r1, r2];
    MixedWord(w);
    MixedRedir(op1, file1);
    MixedRedir(op2, file2);
    MixedConcat(args, [], [w], [], [r1], [op1, file1]);
    MixedConcat(args + [], [] + [r1], [w] + [op1, file1], [], [r2], [op2, file2]);
    assert [w] + [op1, file1] + [op2, file2] == ts && args + [] + [] == args && [] + [r1] + [r2] == rs;
    WrapTwo(Exec(args), r1, r2);
    var cmd := Redir(Redir(Exec(args), r1), r2);
    assert SimpleAs(cmd, ts, args, rs);
    IsLine(cmd, ts);
    ParsesIff(ts, cmd);
  }

  lemma WrapTwo(cmd: Cmd, r1: Redirection, r2: Redirection)
    ensures Wrap(cmd, [r1, r2]) == Redir(Redir(cmd, r1), r2)
  {
    assert [r1, r2][..1] == [r1] && [r1][..0] == [];
    assert Wrap(cmd, [r1]) == Redir(Wrap(cmd, []), r1);
  }

  /** The words of these tokens. */
  function WordsOf(ts: seq<Token>): (r: seq<Word>)
    ensures |r| == |ts| && forall i :: 0 <= i < |ts| ==> r[i] == Word(ts[i].q, ts[i].eq)
  {
    if ts == [] then [] else [Word(ts[0].q, ts[0].eq)] + WordsOf(ts[1..])
  }

  lemma {:induction false} ArgsOfWords(args: seq<Word>, ts: seq<Token>)
    requires forall i :: 0 <= i < |ts| ==> ts[i].kind == 'a'
    ensures ParseArgs(args, [], ts) == if ts == [] || |args| + |ts| <= 9 then Ok(Exec(args + WordsOf(ts)), []) else Err(TooManyArgs)
    decreases |ts|
  {
    hide ParseArgs, ParseRedirs, Wrap;
    if ts == [] {
      ArgsEnd(args, [], ts);
      WrapNothing(Exec(args));
      assert args + WordsOf(ts) == args;
    } else if |args| + 1 < 10 {
      ArgsWord(args, [], ts);
      NoRedirs(ts[1..]);
      ArgsOfWords(args + [Word(ts[0].q, ts[0].eq)], ts[1..]);
      assert args + [Word(ts[0].q, ts[0].eq)] + WordsOf(ts[1..]) == args + WordsOf(ts);
    } else {
      ArgsTooMany(args, ts);
    }
  }

  lemma WrapNothing(cmd: Cmd)
    ensures Wrap(cmd, []) == cmd
  {
  }

  lemma NoRedirs(ts: seq<Token>)
    requires ts == [] || ts[0].kind == 'a'
    ensures ParseRedirs([], ts) == Redirs([], ts)
  {
  }

  lemma ArgsTooMany(args: seq<Word>, ts: seq<Token>)
    requires Starts(ts, 'a') && |args| + 1 >= 10
    ensures ParseArgs(args, [], ts) == Err(TooManyArgs)
  {
  }

  /** A line of words is a command with these arguments if there are at most nine of them, and refused otherwise. */
  lemma WordsOnly(ts: seq<Token>)
    requires forall i :: 0 <= i < |ts| ==> ts[i].kind == 'a'
    ensures ParseCmd(ts) == if |ts| <= 9 then Ok(Exec(WordsOf(ts)), []) else Err(TooManyArgs)
  {
    hide ParseArgs;
    ArgsOfWords([], ts);
    assert [] + WordsOf(ts) == WordsOf(ts);
    assert ParseRedirs([], ts) == Redirs([], ts);
    assert ParseExec(ts) == ParseArgs([], [], ts);
  }

  lemma IsLine(cmd: Cmd, ts: seq<Token>)
    requires ExecOf(cmd, ts)
    ensures LineOf(cmd, ts)
  {
    hide ExecOf;
    assert PipeOf(cmd, ts);
    assert BackOf(cmd, ts);
  }

  // ---------------------------------------------------------------- >> and >

  predicate IsOut(t: Token) { t.kind == '>' || t.kind == '+' }

  /** The same tokens, except that > may stand for >> and >> for >. */
  predicate Alike(ts: seq<Token>, us: seq<Token>) {
    |ts| == |us| && forall i :: 0 <= i < |ts| ==> ts[i] == us[i] || (IsOut(ts[i]) && IsOut(us[i]))
  }

  lemma {:induction false} AlikeMixed(args: seq<Word>, rs: seq<Redirection>, ts: seq<Token>, us: seq<Token>)
    requires Alike(ts, us) && Mixed(args, rs, ts)
    ensures Mixed(args, rs, us)
    decreases |ts|
  {
    if ts != [] && ts[0].kind == 'a' {
      AlikeMixed(args[1..], rs, ts[1..], us[1..]);
    } else if ts != [] {
      AlikeMixed(args, rs[1..], ts[2..], us[2..]);
    }
  }

  lemma {:induction false} AlikeExec(cmd: Cmd, ts: seq<Token>, us: seq<Token>)
    requires Alike(ts, us) && ExecOf(cmd, ts)
    ensures ExecOf(cmd, us)
    decreases |ts|, 1
  {
    hide Mixed, LineOf;
    if args: seq<Word>, rs: seq<Redirection> :| SimpleAs(cmd, ts, args, rs) {
      AlikeMixed(args, rs, ts, us);
      assert SimpleAs(cmd, us, args, rs);
    } else {
      var k: nat, inner: Cmd, rs: seq<Redirection> :| BlockAs(cmd, ts, k, inner, rs);
      AlikeLine(inner, ts[1..k], us[1..k]);
      AlikeMixed([], rs, ts[k + 1..], us[k + 1..]);
      assert BlockAs(cmd, us, k, inner, rs);
    }
  }

  lemma {:induction false} AlikePipe(cmd: Cmd, ts: seq<Token>, us: seq<Token>)
    requires Alike(ts, us) && PipeOf(cmd, ts)
    ensures PipeOf(cmd, us)
    decreases |ts|, 2
  {
    hide ExecOf;
    if ExecOf(cmd, ts) {
      AlikeExec(cmd, ts, us);
    } else {
      var k: nat :| PipeAt(cmd, ts, k);
      AlikeExec(cmd.left, ts[..k], us[..k]);
      AlikePipe(cmd.right, ts[k + 1..], us[k + 1..]);
      assert PipeAt(cmd, us, k);
    }
  }

  lemma {:induction false} AlikeBack(cmd: Cmd, ts: seq<Token>, us: seq<Token>)
    requires Alike(ts, us) && BackOf(cmd, ts)
    ensures BackOf(cmd, us)
    decreases |ts|, 3
  {
    hide PipeOf;
    if PipeOf(cmd, ts) {
      AlikePipe(cmd, ts, us);
    } else {
      AlikeBack(cmd.cmd, ts[..|ts| - 1], us[..|us| - 1]);
    }
  }

  lemma {:induction false} AlikeLine(cmd: Cmd, ts: seq<Token>, us: seq<Token>)
    requires Alike(ts, us) && LineOf(cmd, ts)
    ensures LineOf(cmd, us)
    decreases |ts|, 4
  {
    hide BackOf;
    if BackOf(cmd, ts) {
      AlikeBack(cmd, ts, us);
    } else {
      var k: nat :| ListAt(cmd, ts, k);
      AlikeBack(cmd.left, ts[..k], us[..k]);
      AlikeLine(cmd.right, ts[k + 1..], us[k + 1..]);
      assert ListAt(cmd, us, k);
    }
  }

  /** A line with >> in it is the command that it is with >: nothing is ever appended to. */
  lemma AppendIsCreate(ts: seq<Token>, us: seq<Token>, cmd: Cmd)
    requires Alike(ts, us)
    ensures ParseCmd(ts) == Ok(cmd, []) <==> ParseCmd(us) == Ok(cmd, [])
  {
    hide LineOf, ParseCmd;
    ParsesIff(ts, cmd);
    ParsesIff(us, cmd);
    if LineOf(cmd, ts) { AlikeLine(cmd, ts, us); }
    if LineOf(cmd, us) { AlikeLine(cmd, us, ts); }
  }
}
