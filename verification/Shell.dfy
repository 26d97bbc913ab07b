/** The scanner and parser of sh.c on the text of a line, and its cutting into strings. */
module Shell {
  import opened ShellGrammar

  // ---------------------------------------------------------------- tokens of a line

  predicate IsSpace(c: char) { c == ' ' || c == '\t' || c == '\r' || c == '\n' || c == '\U{0B}' }

  predicate IsSymbol(c: char) { c == '<' || c == '|' || c == '>' || c == '&' || c == ';' || c == '(' || c == ')' }

  predicate InWord(c: char) { !IsSpace(c) && !IsSymbol(c) }

  /** The first position from i on that is not white space. */
  function Skip(text: string, i: nat): (j: nat)
    requires i <= |text|
    ensures i <= j <= |text| && (j < |text| ==> !IsSpace(text[j])) && forall k :: i <= k < j ==> IsSpace(text[k])
    decreases |text| - i
  {
    if i < |text| && IsSpace(text[i]) then Skip(text, i + 1) else i
  }

  function WordEnd(text: string, i: nat): (j: nat)
    requires i <= |text|
    ensures i <= j <= |text| && (forall k :: i <= k < j ==> InWord(text[k])) && (j < |text| ==> !InWord(text[j]))
    decreases |text| - i
  {
    if i < |text| && InWord(text[i]) then WordEnd(text, i + 1) else i
  }

  function TokenAt(text: string, i: nat): (t: Token)
    requires i < |text| && !IsSpace(text[i])
    ensures t.q == i < t.eq <= |text|
  {
    if InWord(text[i]) then Token('a', i, WordEnd(text, i))
    else if text[i] == '>' && i + 1 < |text| && text[i + 1] == '>' then Token('+', i, i + 2)
    else Token(text[i], i, i + 1)
  }

  /** The tokens from position i on. */
  function Lex(text: string, i: nat): (ts: seq<Token>)
    requires i <= |text|
    decreases |text| - i
  {
    var j := Skip(text, i);
    if j == |text| then [] else [TokenAt(text, j)] + Lex(text, TokenAt(text, j).eq)
  }

  const WHITESPACE: string := " \t\r\n\U{0B}"

  const SYMBOLS: string := "<|>&;()"

  lemma Classes(c: char)
    ensures (IsSpace(c) <==> c in WHITESPACE) && (IsSymbol(c) <==> c in SYMBOLS)
  {
    if c in WHITESPACE {
      var k :| 0 <= k < 5 && WHITESPACE[k] == c;
      assert k == 0 || k == 1 || k == 2 || k == 3 || k == 4;
    }
    if c in SYMBOLS {
      var k :| 0 <= k < 7 && SYMBOLS[k] == c;
      assert k == 0 || k == 1 || k == 2 || k == 3 || k == 4 || k == 5 || k == 6;
    }
    assert WHITESPACE[0] == ' ' && WHITESPACE[1] == '\t' && WHITESPACE[2] == '\r';
    assert WHITESPACE[3] == '\n' && WHITESPACE[4] == '\U{0B}';
    assert SYMBOLS[0] == '<' && SYMBOLS[1] == '|' && SYMBOLS[2] == '>' && SYMBOLS[3] == '&' && SYMBOLS[4] == ';';
    assert SYMBOLS[5] == '(' && SYMBOLS[6] == ')';
  }

  /** What the characters of a token are: a word has neither white space nor symbols and is as long as it can be;
      a symbol stands for itself; two > are one token. */
  ghost predicate Spelled(text: string, t: Token) {
    && t.q < t.eq <= |text|
    && if t.kind == 'a' then
         && (forall k :: t.q <= k < t.eq ==> text[k] !in WHITESPACE && text[k] !in SYMBOLS)
         && (t.eq < |text| ==> text[t.eq] in WHITESPACE || text[t.eq] in SYMBOLS)
       else if t.kind == '+' then text[t.q..t.eq] == ">>"
       else t.kind in SYMBOLS && text[t.q..t.eq] == [t.kind] && (t.kind == '>' && t.eq < |text| ==> text[t.eq] != '>')
  }

  lemma TokenSpelled(text: string, i: nat)
    requires i < |text| && !IsSpace(text[i])
    ensures Spelled(text, TokenAt(text, i))
  {
    hide IsSpace, IsSymbol, WHITESPACE, SYMBOLS;
    var t := TokenAt(text, i);
    forall k | 0 <= k < |text|
      ensures (IsSpace(text[k]) <==> text[k] in WHITESPACE) && (IsSymbol(text[k]) <==> text[k] in SYMBOLS)
    {
      Classes(text[k]);
    }
    PlainSymbol(text[i]);
    if !InWord(text[i]) {
      if t.kind == '+' {
        assert text[i..i + 2] == [text[i], text[i + 1]];
      } else {
        assert text[i..i + 1] == [text[i]];
      }
    }
  }

  lemma PlainSymbol(c: char)
    ensures IsSymbol(c) ==> c != 'a' && c != '+'
  {
  }

  /** The tokens of a line are spelled as above, stand one behind the other, and leave out white space only. */
  lemma {:induction false} TokensSpelled(text: string, i: nat)
    requires i <= |text|
    ensures var ts := Lex(text, i);
      && (forall j :: 0 <= j < |ts| ==> i <= ts[j].q && Spelled(text, ts[j]))
      && (forall j :: 0 < j < |ts| ==> ts[j - 1].eq <= ts[j].q)
      && (forall k: nat :: i <= k < |text| && Outside(ts, k) ==> text[k] in WHITESPACE)
    decreases |text| - i
  {
    hide IsSpace, IsSymbol, WHITESPACE, SYMBOLS, Spelled, TokenAt;
    var j := Skip(text, i);
    forall k | i <= k < j ensures text[k] in WHITESPACE { Classes(text[k]); }
    if j < |text| {
      var t := TokenAt(text, j);
      TokenSpelled(text, j);
      TokensSpelled(text, t.eq);
      var ts, rest := Lex(text, i), Lex(text, t.eq);
      assert ts == [t] + rest;
      forall k: nat | i <= k < |text| && Outside(ts, k) ensures text[k] in WHITESPACE {
        assert !(ts[0].q <= k < ts[0].eq);
        if k >= t.eq {
          forall x | 0 <= x < |rest| ensures !(rest[x].q <= k < rest[x].eq) { assert rest[x] == ts[x + 1]; }
        }
      }
    }
  }

  /** Position k is in none of the tokens. */
  predicate Outside(ts: seq<Token>, k: nat) { forall j :: 0 <= j < |ts| ==> !(ts[j].q <= k < ts[j].eq) }

  /** An instance: the line a & b. */
  lemma BackThenWord()
    ensures ParseCmd(Lex("a & b", 0)) == Err(Leftovers)
  {
    hide ParseCmd;
    var text := "a & b";
    assert Skip(text, 0) == 0 && TokenAt(text, 0) == Token('a', 0, 1);
    assert Skip(text, 1) == 2 && TokenAt(text, 2) == Token('&', 2, 3);
    assert Skip(text, 3) == 4 && TokenAt(text, 4) == Token('a', 4, 5);
    assert Lex(text, 5) == [];
    assert Lex(text, 3) == [Token('a', 4, 5)];
    assert Lex(text, 1) == [Token('&', 2, 3), Token('a', 4, 5)];
    assert Lex(text, 0) == [Token('a', 0, 1), Token('&', 2, 3), Token('a', 4, 5)];
    WordBehindBack(Token('a', 0, 1), Token('&', 2, 3), Token('a', 4, 5));
  }

  lemma {:induction false} SkipTwice(text: string, i: nat)
    requires i <= |text|
    ensures Skip(text, Skip(text, i)) == Skip(text, i)
    decreases |text| - i
  {
    if i < |text| && IsSpace(text[i]) { SkipTwice(text, i + 1); }
  }

  lemma LexSkips(text: string, i: nat)
    requires i <= |text|
    ensures Lex(text, Skip(text, i)) == Lex(text, i)
  {
    SkipTwice(text, i);
  }

  // ---------------------------------------------------------------- the parser

  datatype Outcome = Parsed(cmd: Cmd) | Failed(error: Error)

  /** The outcome and the place behind it are those of the parser on tokens. */
  ghost predicate Agrees(text: string, pos: nat, o: Outcome, r: Result) {
    match r
    case Ok(cmd, rest) => o == Parsed(cmd) && pos <= |text| && Lex(text, pos) == rest
    case Err(e) => o == Failed(e)
  }

  /** Of the next token, peek sees the first character. */
  predicate Shows(ts: seq<Token>, toks: string) {
    ts != [] && ts[0].kind != 'a' && (if ts[0].kind == '+' then '>' in toks else ts[0].kind in toks)
  }

  class Parser {
    const text: string
    /** *ps, as an offset. */
    var pos: nat

    constructor (text: string)
      ensures this.text == text && pos == 0
    {
      this.text := text;
      pos := 0;
    }

    method SkipSpace()
      requires pos <= |text|
      modifies this
      ensures pos == Skip(text, old(pos))
    {
      while pos < |text| && IsSpace(text[pos])
        invariant pos <= |text| && Skip(text, pos) == Skip(text, old(pos))
      {
        pos := pos + 1;
      }
    }

    /** gettoken: '\\0' at the end of the line. */
    method GetToken() returns (ret: char, q: nat, eq: nat)
      requires pos <= |text|
      modifies this
      ensures pos <= |text|
      ensures var ts := Lex(text, old(pos));
              if ts == [] then ret == '\0' && Lex(text, pos) == []
              else ret != '\0' && Token(ret, q, eq) == ts[0] && Lex(text, pos) == ts[1..]
    {
      SkipSpace();
      LexSkips(text, old(pos));
      q := pos;
      if pos == |text| {
        ret := '\0';
      } else if text[pos] == '|' || text[pos] == '(' || text[pos] == ')' || text[pos] == ';' || text[pos] == '&' || text[pos] == '<' {
        ret := text[pos];
        pos := pos + 1;
      } else if text[pos] == '>' {
        ret := text[pos];
        pos := pos + 1;
        if pos < |text| && text[pos] == '>' {
          ret := '+';
          pos := pos + 1;
        }
      } else {
        ret := 'a';
        while pos < |text| && !IsSpace(text[pos]) && !IsSymbol(text[pos])
          invariant q <= pos <= |text| && WordEnd(text, pos) == WordEnd(text, q)
        {
          pos := pos + 1;
        }
      }
      eq := pos;
      LexSkips(text, eq);
      SkipSpace();
    }

    method Peek(toks: string) returns (b: bool)
      requires pos <= |text| && forall c :: c in toks ==> IsSymbol(c)
      modifies this
      ensures pos <= |text| && Lex(text, pos) == Lex(text, old(pos))
      ensures b <==> Shows(Lex(text, pos), toks)
      ensures pos == |text| <==> Lex(text, pos) == []
    {
      SkipSpace();
      LexSkips(text, old(pos));
      SkipTwice(text, old(pos));
      b := pos < |text| && text[pos] in toks;
    }

    method ParseRedirections(rs: seq<Redirection>) returns (more: seq<Redirection>, ok: bool)
      requires pos <= |text|
      modifies this
      ensures pos <= |text|
      ensures var r := ParseRedirs(rs, Lex(text, old(pos)));
              if r.Redirs? then ok && more == r.rs && Lex(text, pos) == r.rest else !ok
    {
      more := rs;
      var b := Peek("<>");
      while b
        invariant pos <= |text| && (b <==> Shows(Lex(text, pos), "<>"))
        invariant ParseRedirs(rs, Lex(text, old(pos))) == ParseRedirs(more, Lex(text, pos))
        decreases |Lex(text, pos)|
      {
        ghost var ts := Lex(text, pos);
        RedirShows(ts);
        var tok, q0, eq0 := GetToken();
        var kind, q, eq := GetToken();
        if kind != 'a' { return more, false; }
        if tok == '<' {
          more := more + [Redirection(q, eq, ReadOnly, 0)];
        } else {
          more := more + [Redirection(q, eq, WriteCreate, 1)];
        }
        b := Peek("<>");
      }
      RedirShows(Lex(text, pos));
      ok := true;
    }

    method ParseBlockAt() returns (o: Outcome)
      requires pos <= |text| && Starts(Lex(text, pos), '(')
      modifies this
      ensures Agrees(text, pos, o, ParseBlock(Lex(text, old(pos))))
      decreases |Lex(text, pos)|, 0
    {
      hide ParseLine, ParseRedirs, Lex;
      var open, _, _ := GetToken();
      o := ParseLineAt();
      if o.Failed? { return; }
      var cmd := o.cmd;
      var b := Peek(")");
      if !b { return Failed(MissingParen); }
      var close, _, _ := GetToken();
      var rs, ok := ParseRedirections([]);
      if !ok { return Failed(MissingFile); }
      return Parsed(Wrap(cmd, rs));
    }

    method ParseExecAt() returns (o: Outcome)
      requires pos <= |text|
      modifies this
      ensures Agrees(text, pos, o, ParseExec(Lex(text, old(pos))))
      decreases |Lex(text, pos)|, 1
    {
      hide ParseBlock, ParseRedirs, Lex;
      ghost var all := Lex(text, pos);
      var b := Peek("(");
      if b {
        o := ParseBlockAt();
        return;
      }
      var args: seq<Word> := [];
      var rs, ok := ParseRedirections([]);
      if !ok { return Failed(MissingFile); }
      b := Peek("|)&;");
      while !b
        invariant pos <= |text| && (b <==> Shows(Lex(text, pos), "|)&;"))
        invariant |args| < MAXARGS && ParseExec(all) == ParseArgs(args, rs, Lex(text, pos))
        decreases |Lex(text, pos)|, b
      {
        EndShows(Lex(text, pos));
        var tok, q, eq := GetToken();
        if tok == '\0' { break; }
        if tok != 'a' { return Failed(Syntax); }
        if |args| + 1 >= MAXARGS { return Failed(TooManyArgs); }
        args := args + [Word(q, eq)];
        rs, ok := ParseRedirections(rs);
        if !ok { return Failed(MissingFile); }
        b := Peek("|)&;");
      }
      EndShows(Lex(text, pos));
      return Parsed(Wrap(Exec(args), rs));
    }

    method ParsePipeAt() returns (o: Outcome)
      requires pos <= |text|
      modifies this
      ensures Agrees(text, pos, o, ParsePipe(Lex(text, old(pos))))
      decreases |Lex(text, pos)|, 2
    {
      hide ParseExec, Lex;
      o := ParseExecAt();
      if o.Failed? { return; }
      var b := Peek("|");
      if b {
        var cmd := o.cmd;
        var bar, _, _ := GetToken();
        o := ParsePipeAt();
        if o.Parsed? { o := Parsed(Pipe(cmd, o.cmd)); }
      }
    }

    method ParseLineAt() returns (o: Outcome)
      requires pos <= |text|
      modifies this
      ensures Agrees(text, pos, o, ParseLine(Lex(text, old(pos))))
      decreases |Lex(text, pos)|, 3
    {
      hide ParsePipe, Lex;
      ghost var all := Lex(text, pos);
      o := ParsePipeAt();
      if o.Failed? { return; }
      var cmd := o.cmd;
      ghost var first := ParsePipe(all);
      var b := Peek("&");
      while b
        invariant pos <= |text| && (b <==> Shows(Lex(text, pos), "&")) && |Lex(text, pos)| <= |all|
        invariant ParseBacks(cmd, Lex(text, pos)) == ParseBacks(first.cmd, first.rest)
        decreases |Lex(text, pos)|
      {
        var amp, _, _ := GetToken();
        cmd := Back(cmd);
        b := Peek("&");
      }
      o := Parsed(cmd);
      b := Peek(";");
      if b {
        var semi, _, _ := GetToken();
        o := ParseLineAt();
        if o.Parsed? { o := Parsed(List(cmd, o.cmd)); }
      }
    }

    /** parsecmd, up to the cutting of the line. */
    method ParseCommand() returns (o: Outcome)
      requires pos == 0
      modifies this
      ensures match ParseCmd(Lex(text, 0))
              case Ok(cmd, _) => o == Parsed(cmd)
              case Err(e) => o == Failed(e)
    {
      hide ParseLine, Lex;
      o := ParseLineAt();
      if o.Failed? { return; }
      var b := Peek("");
      if pos != |text| { return Failed(Leftovers); }
    }
  }

  lemma RedirShows(ts: seq<Token>)
    ensures Shows(ts, "<>") <==> ts != [] && IsRedir(ts[0])
  {
  }

  lemma EndShows(ts: seq<Token>)
    ensures EndsArgs(ts) <==> ts == [] || Shows(ts, "|)&;")
  {
  }

  // ---------------------------------------------------------------- cutting the line into strings

  function WordSet(args: seq<Word>): set<Word> { set w | w in args }

  /** The words and file names in a tree. */
  function Words(cmd: Cmd): set<Word> {
    match cmd
    case Exec(args) => WordSet(args)
    case Redir(c, r) => Words(c) + {Word(r.q, r.eq)}
    case Pipe(l, r) => Words(l) + Words(r)
    case List(l, r) => Words(l) + Words(r)
    case Back(c) => Words(c)
  }

  /** Position i is the end of one of the words. */
  ghost predicate IsEnd(words: set<Word>, i: nat) { exists w :: w in words && w.eq == i }

  ghost predicate EndsIn(words: set<Word>, n: nat) { forall w :: w in words ==> w.eq < n }

  /** A zero has been written at the end of every word. */
  ghost predicate Cut(before: seq<char>, after: seq<char>, words: set<Word>) {
    |after| == |before| && forall i: nat :: i < |after| ==> after[i] == if IsEnd(words, i) then '\0' else before[i]
  }

  lemma CutTwice(a: seq<char>, b: seq<char>, c: seq<char>, u: set<Word>, v: set<Word>)
    requires Cut(a, b, u) && Cut(b, c, v)
    ensures Cut(a, c, u + v)
  {
    forall i: nat | i < |c| ensures c[i] == if IsEnd(u + v, i) then '\0' else a[i] {
      if IsEnd(u, i) { var w :| w in u && w.eq == i; assert w in u + v; }
      if IsEnd(v, i) { var w :| w in v && w.eq == i; assert w in u + v; }
      if IsEnd(u + v, i) { var w :| w in u + v && w.eq == i; assert w in u || w in v; }
    }
  }

  lemma CutOne(a: seq<char>, w: Word)
    requires w.eq < |a|
    ensures Cut(a, a[w.eq := '\0'], {w})
  {
    assert w in {w};
  }

  /** nulterminate. */
  method NulTerminate(cmd: Cmd, buf: array<char>)
    requires EndsIn(Words(cmd), buf.Length)
    modifies buf
    ensures Cut(old(buf[..]), buf[..], Words(cmd))
    decreases cmd
  {
    ghost var before := buf[..];
    match cmd
    case Exec(args) =>
      var i := 0;
      while i < |args|
        invariant 0 <= i <= |args| && Cut(before, buf[..], WordSet(args[..i]))
      {
        assert args[i] in Words(cmd);
        ghost var mid := buf[..];
        buf[args[i].eq] := '\0';
        CutOne(mid, args[i]);
        CutTwice(before, mid, buf[..], WordSet(args[..i]), {args[i]});
        assert WordSet(args[..i]) + {args[i]} == WordSet(args[..i + 1]);
        i := i + 1;
      }
      assert args[..i] == args;
    case Redir(c, r) =>
      assert Word(r.q, r.eq) in Words(cmd);
      NulTerminate(c, buf);
      ghost var mid := buf[..];
      buf[r.eq] := '\0';
      CutOne(mid, Word(r.q, r.eq));
      CutTwice(before, mid, buf[..], Words(c), {Word(r.q, r.eq)});
    case Pipe(l, r) =>
      NulTerminate(l, buf);
      ghost var mid := buf[..];
      NulTerminate(r, buf);
      CutTwice(before, mid, buf[..], Words(l), Words(r));
    case List(l, r) =>
      NulTerminate(l, buf);
      ghost var mid := buf[..];
      NulTerminate(r, buf);
      CutTwice(before, mid, buf[..], Words(l), Words(r));
    case Back(c) =>
      NulTerminate(c, buf);
  }

  // ---------------------------------------------------------------- the strings are the tokens

  /** The words among the tokens. */
  function TokenWords(ts: seq<Token>): set<Word> { set t | t in ts && t.kind == 'a' :: Word(t.q, t.eq) }

  lemma TokenWordsTail(ts: seq<Token>, k: nat)
    requires k <= |ts|
    ensures TokenWords(ts[k..]) <= TokenWords(ts)
  {
    forall w | w in TokenWords(ts[k..]) ensures w in TokenWords(ts) {
      var t :| t in ts[k..] && t.kind == 'a' && Word(t.q, t.eq) == w;
      assert t in ts;
    }
  }

  lemma TokenWordAt(ts: seq<Token>, k: nat)
    requires k < |ts| && ts[k].kind == 'a'
    ensures Word(ts[k].q, ts[k].eq) in TokenWords(ts)
  {
    assert ts[k] in ts;
  }

  function FileSet(rs: seq<Redirection>): set<Word> { set r | r in rs :: Word(r.q, r.eq) }

  lemma {:induction false} WrapWords(cmd: Cmd, rs: seq<Redirection>)
    ensures Words(Wrap(cmd, rs)) == Words(cmd) + FileSet(rs)
    decreases |rs|
  {
    if rs == [] {
      assert FileSet(rs) == {};
    } else {
      var init, last := rs[..|rs| - 1], rs[|rs| - 1];
      WrapWords(cmd, init);
      FileSetAdd(init, last);
      assert rs == init + [last];
    }
  }

  lemma FileSetAdd(rs: seq<Redirection>, r: Redirection)
    ensures FileSet(rs + [r]) == FileSet(rs) + {Word(r.q, r.eq)}
  {
    forall w ensures w in FileSet(rs + [r]) <==> w in FileSet(rs) + {Word(r.q, r.eq)} {
      if w in FileSet(rs) { var x :| x in rs && Word(x.q, x.eq) == w; assert x in rs + [r]; }
      if w == Word(r.q, r.eq) { assert r in rs + [r]; }
    }
  }

  lemma {:induction false} RedirsWords(rs: seq<Redirection>, ts: seq<Token>)
    requires ParseRedirs(rs, ts).Redirs?
    ensures FileSet(ParseRedirs(rs, ts).rs) <= FileSet(rs) + TokenWords(ts)
    ensures TokenWords(ParseRedirs(rs, ts).rest) <= TokenWords(ts)
    decreases |ts|
  {
    if ts != [] && IsRedir(ts[0]) {
      RedirsWords(rs + [RedirOf(ts[0], ts[1])], ts[2..]);
      FileSetAdd(rs, RedirOf(ts[0], ts[1]));
      TokenWordsTail(ts, 2);
      TokenWordAt(ts, 1);
    }
  }

  lemma {:induction false} ArgsWords(args: seq<Word>, rs: seq<Redirection>, ts: seq<Token>)
    requires ParseArgs(args, rs, ts).Ok?
    ensures Words(ParseArgs(args, rs, ts).cmd) <= WordSet(args) + FileSet(rs) + TokenWords(ts)
    ensures TokenWords(ParseArgs(args, rs, ts).rest) <= TokenWords(ts)
    decreases |ts|
  {
    if EndsArgs(ts) {
      WrapWords(Exec(args), rs);
    } else {
      var w := Word(ts[0].q, ts[0].eq);
      RedirsWords(rs, ts[1..]);
      TokenWordsTail(ts, 1);
      TokenWordAt(ts, 0);
      var r := ParseRedirs(rs, ts[1..]);
      ArgsWords(args + [w], r.rs, r.rest);
      assert WordSet(args + [w]) == WordSet(args) + {w};
    }
  }

  lemma {:induction false} BlockWords(ts: seq<Token>)
    requires Starts(ts, '(') && ParseBlock(ts).Ok?
    ensures Words(ParseBlock(ts).cmd) <= TokenWords(ts) && TokenWords(ParseBlock(ts).rest) <= TokenWords(ts)
    decreases |ts|, 0
  {
    hide ParseLine, ParseRedirs, TokenWords, FileSet;
    TokenWordsTail(ts, 1);
    LineWords(ts[1..]);
    var line := ParseLine(ts[1..]);
    TokenWordsTail(line.rest, 1);
    RedirsWords([], line.rest[1..]);
    NoFiles();
    WrapWords(line.cmd, ParseRedirs([], line.rest[1..]).rs);
  }

  lemma NoFiles()
    ensures FileSet([]) == {} && WordSet([]) == {}
  {
  }

  lemma {:induction false} ExecWords(ts: seq<Token>)
    requires ParseExec(ts).Ok?
    ensures Words(ParseExec(ts).cmd) <= TokenWords(ts) && TokenWords(ParseExec(ts).rest) <= TokenWords(ts)
    decreases |ts|, 1
  {
    hide ParseBlock, ParseArgs, ParseRedirs, TokenWords, FileSet, WordSet;
    if Starts(ts, '(') {
      BlockWords(ts);
    } else {
      NoFiles();
      RedirsWords([], ts);
      var r := ParseRedirs([], ts);
      ArgsWords([], r.rs, r.rest);
    }
  }

  lemma {:induction false} PipeWords(ts: seq<Token>)
    requires ParsePipe(ts).Ok?
    ensures Words(ParsePipe(ts).cmd) <= TokenWords(ts) && TokenWords(ParsePipe(ts).rest) <= TokenWords(ts)
    decreases |ts|, 2
  {
    hide ParseExec, TokenWords;
    ExecWords(ts);
    var left := ParseExec(ts);
    if Starts(left.rest, '|') {
      TokenWordsTail(left.rest, 1);
      PipeWords(left.rest[1..]);
    }
  }

  lemma {:induction false} BacksWords(cmd: Cmd, ts: seq<Token>)
    ensures Words(ParseBacks(cmd, ts).cmd) == Words(cmd) && TokenWords(ParseBacks(cmd, ts).rest) <= TokenWords(ts)
    decreases |ts|
  {
    if Starts(ts, '&') {
      BacksWords(Back(cmd), ts[1..]);
      TokenWordsTail(ts, 1);
    }
  }

  lemma {:induction false} LineWords(ts: seq<Token>)
    requires ParseLine(ts).Ok?
    ensures Words(ParseLine(ts).cmd) <= TokenWords(ts) && TokenWords(ParseLine(ts).rest) <= TokenWords(ts)
    decreases |ts|, 3
  {
    hide ParsePipe, ParseBacks, TokenWords;
    PipeWords(ts);
    var first := ParsePipe(ts);
    BacksWords(first.cmd, first.rest);
    var b := ParseBacks(first.cmd, first.rest);
    if Starts(b.rest, ';') {
      TokenWordsTail(b.rest, 1);
      LineWords(b.rest[1..]);
    }
  }

  /** A word is a run of word characters that ends at a space, a symbol or the end of the line. */
  ghost predicate Delimited(text: string, w: Word) {
    w.q < w.eq <= |text| && (forall k :: w.q <= k < w.eq ==> InWord(text[k])) && (w.eq < |text| ==> !InWord(text[w.eq]))
  }

  lemma {:induction false} LexDelimits(text: string, i: nat, w: Word)
    requires i <= |text| && w in TokenWords(Lex(text, i))
    ensures Delimited(text, w)
    decreases |text| - i
  {
    var j := Skip(text, i);
    var ts := Lex(text, i);
    var t :| t in ts && t.kind == 'a' && Word(t.q, t.eq) == w;
    if t != ts[0] {
      assert t in ts[1..] && ts[1..] == Lex(text, ts[0].eq);
      LexDelimits(text, ts[0].eq, w);
    }
  }

  /** The C string at position q of the buffer. */
  ghost predicate IsString(buf: seq<char>, q: nat, str: string) {
    q + |str| < |buf| && buf[q..q + |str|] == str && '\0' !in str && buf[q + |str|] == '\0'
  }

  /** After nulterminate every argument and file name of an accepted line reads as it was written. */
  lemma StringsAreTokens(text: string, cmd: Cmd, after: seq<char>, w: Word)
    requires '\0' !in text && ParseCmd(Lex(text, 0)) == Ok(cmd, []) && w in Words(cmd)
    requires Cut(text + ['\0'], after, Words(cmd))
    ensures w.q < w.eq <= |text| && IsString(after, w.q, text[w.q..w.eq])
  {
    hide ParseLine, Lex;
    LineWords(Lex(text, 0));
    LexDelimits(text, 0, w);
    forall k: nat | w.q <= k < w.eq ensures after[k] == text[k] {
      if IsEnd(Words(cmd), k) {
        var v :| v in Words(cmd) && v.eq == k;
        LexDelimits(text, 0, v);
      }
    }
    assert IsEnd(Words(cmd), w.eq);
    assert after[w.q..w.eq] == text[w.q..w.eq];
  }

  /** parsecmd on a line in a buffer: it fails as the parser does, or leaves a tree of the grammar whose
      strings are the line's own words. */
  method ParseAndCut(text: string, buf: array<char>) returns (o: Outcome)
    requires '\0' !in text && buf[..] == text + ['\0']
    modifies buf
    ensures o.Failed? <==> forall cmd :: !LineOf(cmd, Lex(text, 0))
    ensures o.Parsed? ==> LineOf(o.cmd, Lex(text, 0))
    ensures o.Parsed? ==> forall w :: w in Words(o.cmd) ==> w.q < w.eq <= |text| && IsString(buf[..], w.q, text[w.q..w.eq])
  {
    hide LineOf, ParseCmd, Lex;
    var parser := new Parser(text);
    o := parser.ParseCommand();
    ghost var ts := Lex(text, 0);
    CmdRest(ts);
    if o.Failed? {
      forall cmd ensures !LineOf(cmd, ts) { ParsesIff(ts, cmd); }
    } else {
      ParsesIff(ts, o.cmd);
      WordsEnd(text, o.cmd);
      NulTerminate(o.cmd, buf);
      forall w | w in Words(o.cmd) ensures w.q < w.eq <= |text| && IsString(buf[..], w.q, text[w.q..w.eq]) {
        StringsAreTokens(text, o.cmd, buf[..], w);
      }
    }
  }

  lemma CmdRest(ts: seq<Token>)
    ensures ParseCmd(ts).Ok? ==> ParseCmd(ts).rest == []
  {
  }

  lemma WordsEnd(text: string, cmd: Cmd)
    requires ParseCmd(Lex(text, 0)) == Ok(cmd, [])
    ensures EndsIn(Words(cmd), |text| + 1)
  {
    hide ParseLine, Lex;
    LineWords(Lex(text, 0));
    forall w | w in Words(cmd) ensures w.eq < |text| + 1 { LexDelimits(text, 0, w); }
  }
}
