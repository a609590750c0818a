/** The shell's parser as written: methods that move a cursor through the line, and nulterminate, which
    then ends every word in place. */
module Shell {
  import opened Sequences
  import opened ShellLexer
  import opened ShellGrammar
  import opened ShellParse
  import opened ShellMeaning
  import opened Wrappers

  datatype Outcome<+T> = Panic(error: Error) | Value(value: T)

  /** The parser function's result, as a panic or as a value with the cursor before the remaining tokens. */
  ghost predicate Agrees<T>(p: Parse<T>, r: Outcome<T>, rest: seq<Tok>) {
    match p
    case Fail(e) => r == Panic(e)
    case Ok(v, ts) => r == Value(v) && rest == ts
  }

  /** The symbols that peek is asked for. */
  lemma PeekKinds(k: Kind)
    ensures StartsWith(k, "<>") <==> IsRedir(k)
    ensures StartsWith(k, "|)&;") <==> k == Bar || k == RParen || k == Amp || k == Semi
    ensures StartsWith(k, "(") <==> k == LParen
    ensures StartsWith(k, ")") <==> k == RParen
    ensures StartsWith(k, "|") <==> k == Bar
    ensures StartsWith(k, "&") <==> k == Amp
    ensures StartsWith(k, ";") <==> k == Semi
  {
  }

  /** What peek has found, for each string it is called with. */
  ghost predicate PeekFound(ts: seq<Tok>, toks: string) {
    ts != [] && StartsWith(ts[0].kind, toks)
  }

  lemma PeekFacts(ts: seq<Tok>)
    ensures PeekFound(ts, "<>") == NextRedir(ts) && (Stops(ts) <==> ts == [] || PeekFound(ts, "|)&;"))
    ensures PeekFound(ts, "(") == Next(ts, LParen) && PeekFound(ts, ")") == Next(ts, RParen)
    ensures PeekFound(ts, "|") == Next(ts, Bar) && PeekFound(ts, "&") == Next(ts, Amp)
    ensures PeekFound(ts, ";") == Next(ts, Semi)
  {
    hide StartsWith;
    if ts != [] {
      PeekKinds(ts[0].kind);
    }
  }

  lemma BeforeNone(p: Parse<seq<Redirection>>)
    ensures Before([], p) == p
  {
    assert p.Ok? ==> [] + p.value == p.value;
  }

  /** Redirections collected so far, in front of those still to come. */
  ghost function Before(rs: seq<Redirection>, p: Parse<seq<Redirection>>): Parse<seq<Redirection>> {
    match p
    case Fail(e) => Fail(e)
    case Ok(more, rest) => Ok(rs + more, rest)
  }

  class Parser {
    const line: string
    var s: nat

    ghost predicate Valid()
      reads this
    {
      s <= |line|
    }

    ghost function Left(): seq<Tok>
      requires Valid()
      reads this
    {
      Lex(line, s)
    }

    constructor (l: string)
      ensures Valid() && line == l && Left() == Lex(l, 0)
    {
      line, s := l, 0;
    }

    method PeekAt(toks: string) returns (b: bool)
      requires Valid() && forall j :: 0 <= j < |toks| ==> IsSymbol(toks[j])
      modifies this
      ensures Valid() && Left() == old(Left()) && b == PeekFound(Left(), toks) && (Left() == [] <==> s == |line|)
    {
      b, s := Peek(line, s, toks);
    }

    method Take() returns (t: Option<Tok>)
      requires Valid()
      modifies this
      ensures Valid() && (t.None? ==> Left() == old(Left()) == []) && (t.Some? ==> old(Left()) == [t.value] + Left())
    {
      var k, q, eq;
      k, q, eq, s := Gettoken(line, s);
      t := if k.None? then None else Some(Tok(k.value, q, eq));
    }

    method Parseredirs() returns (r: Outcome<seq<Redirection>>)
      requires Valid()
      modifies this
      ensures Valid() && Agrees(ParseRedirs(old(Left())), r, Left())
    {
      hide Lex, PeekFound, RedirOf;
      var rs: seq<Redirection> := [];
      ghost var all := ParseRedirs(Left());
      BeforeNone(all);
      var more := PeekAt("<>");
      PeekFacts(Left());
      while more
        invariant Valid() && Before(rs, ParseRedirs(Left())) == all && more == NextRedir(Left())
        decreases |Left()|
      {
        ghost var ts := Left();
        var op := Take();
        var file := Take();
        if file.None? || file.value.kind != Word {
          return Panic(MissingFile);
        }
        assert ts[0] == op.value && ts[1] == file.value && ts[2..] == Left();
        Collected(rs, RedirOf(op.value.kind, file.value), ParseRedirs(Left()));
        rs := rs + [RedirOf(op.value.kind, file.value)];
        more := PeekAt("<>");
        PeekFacts(Left());
      }
      assert rs + [] == rs;
      return Value(rs);
    }

    method Parseline() returns (r: Outcome<Cmd>)
      requires Valid()
      modifies this
      ensures Valid() && Agrees(ParseLine(old(Left())), r, Left())
      decreases |Left()|, 3
    {
      hide Lex, PeekFound, ParsePipe, Amps, Backs;
      r := Parsepipe();
      if r.Panic? {
        return;
      }
      ghost var rest := Left();
      var cmd := Parseamps(r.value);
      ghost var n := Amps(rest);
      var semi := PeekAt(";");
      PeekFacts(Left());
      if semi {
        var t := Take();
        assert rest[n + 1..] == Left();
        r := Parseline();
        if r.Value? {
          r := Value(List(cmd, r.value));
        }
        return;
      }
      r := Value(cmd);
    }

    /** parseline's loop over the & tokens. */
    method Parseamps(c: Cmd) returns (cmd: Cmd)
      requires Valid()
      modifies this
      ensures Valid() && cmd == Backs(c, Amps(old(Left()))) && Left() == old(Left())[Amps(old(Left()))..]
    {
      hide Lex, PeekFound, Amps;
      cmd := c;
      ghost var rest, n := Left(), 0;
      var more := PeekAt("&");
      PeekFacts(Left());
      while more
        invariant Valid() && n <= Amps(rest) && Left() == rest[n..] && cmd == Backs(c, n) && more == Next(Left(), Amp)
        decreases |Left()|
      {
        var amp := Take();
        cmd := Back(cmd);
        OneMoreAmp(rest, n);
        n := n + 1;
        more := PeekAt("&");
        PeekFacts(Left());
      }
      AllAmps(rest, n);
    }

    method Parsepipe() returns (r: Outcome<Cmd>)
      requires Valid()
      modifies this
      ensures Valid() && Agrees(ParsePipe(old(Left())), r, Left())
      decreases |Left()|, 2
    {
      hide Lex, PeekFound, ParseLine, ParseExec;
      r := Parseexec();
      if r.Panic? {
        return;
      }
      var cmd := r.value;
      ghost var rest := Left();
      var more := PeekAt("|");
      PeekFacts(Left());
      if more {
        var t := Take();
        assert rest[1..] == Left();
        r := Parsepipe();
        if r.Value? {
          r := Value(Pipe(cmd, r.value));
        }
      }
    }

    method Parseblock() returns (r: Outcome<Cmd>)
      requires Valid() && Next(Left(), LParen)
      modifies this
      ensures Valid() && Agrees(ParseExec(old(Left())), r, Left())
      decreases |Left()|, 0
    {
      hide Lex, PeekFound, ParseLine, ParsePipe, ParseRedirs, ParseArgs, Wrap;
      ghost var ts := Left();
      var t := Take();
      assert ts[1..] == Left();
      r := Parseline();
      if r.Panic? {
        return;
      }
      var cmd := r.value;
      ghost var rest := Left();
      var closed := PeekAt(")");
      PeekFacts(Left());
      if !closed {
        return Panic(MissingParen);
      }
      t := Take();
      assert rest[1..] == Left();
      var rs := Parseredirs();
      r := if rs.Panic? then Panic(rs.error) else Value(Wrap(cmd, rs.value));
    }

    method Parseexec() returns (r: Outcome<Cmd>)
      requires Valid()
      modifies this
      ensures Valid() && Agrees(ParseExec(old(Left())), r, Left())
      decreases |Left()|, 1
    {
      hide Lex, PeekFound, ParseLine, ParsePipe, ParseRedirs, Wrap;
      var block := PeekAt("(");
      PeekFacts(Left());
      if block {
        r := Parseblock();
        return;
      }
      var argv: seq<Tok> := [];
      var rs := Parseredirs();
      if rs.Panic? {
        return Panic(rs.error);
      }
      var redirs := rs.value;
      ghost var all := ParseArgs([], redirs, Left());
      var stop := PeekAt("|)&;");
      PeekFacts(Left());
      while !stop
        invariant Valid() && ParseArgs(argv, redirs, Left()) == all && (stop ==> Stops(Left()))
        invariant !stop && Left() != [] ==> !Stops(Left())
        decreases |Left()|
      {
        ghost var ts := Left();
        var t := Take();
        if t.None? {
          break;
        }
        assert ts[0] == t.value && ts[1..] == Left();
        if t.value.kind != Word {
          return Panic(Syntax);
        }
        argv := argv + [t.value];
        if |argv| >= MAXARGS {
          return Panic(TooManyArgs);
        }
        rs := Parseredirs();
        if rs.Panic? {
          return Panic(rs.error);
        }
        redirs := redirs + rs.value;
        stop := PeekAt("|)&;");
        PeekFacts(Left());
      }
      return Value(Wrap(Exec(argv), redirs));
    }
  }

  lemma OneMoreAmp(rest: seq<Tok>, n: nat)
    requires n <= Amps(rest) && Next(rest[n..], Amp)
    ensures n + 1 <= Amps(rest) && rest[n..] == [rest[n]] + rest[n + 1..]
  {
  }

  lemma AllAmps(rest: seq<Tok>, n: nat)
    requires n <= Amps(rest) && !Next(rest[n..], Amp)
    ensures n == Amps(rest)
  {
  }

  lemma Collected(rs: seq<Redirection>, r: Redirection, p: Parse<seq<Redirection>>)
    ensures Before(rs, Before([r], p)) == Before(rs + [r], p)
  {
    if p.Ok? {
      Assoc(rs, [r], p.value);
    }
  }

  // ----- nulterminate

  /** The words of a command: arguments and file names. */
  ghost function CmdWords(c: Cmd): set<Tok> {
    match c
    case Exec(argv) => set t | t in argv
    case Redir(c', r) => CmdWords(c') + {r.file}
    case Pipe(a, b) => CmdWords(a) + CmdWords(b)
    case List(a, b) => CmdWords(a) + CmdWords(b)
    case Back(c') => CmdWords(c')
  }

  /** The buffer with NULs at the ends of these words, and nothing else changed. */
  ghost predicate Terminated(was: string, now: string, words: set<Tok>) {
    |now| == |was| && forall k :: 0 <= k < |was| ==> now[k] == if k in Ends(words) then '\0' else was[k]
  }

  ghost function Ends(words: set<Tok>): set<nat> {
    set t | t in words :: t.eq
  }

  method Nulterminate(c: Cmd, buf: array<char>)
    requires forall t :: t in CmdWords(c) ==> t.eq < buf.Length
    modifies buf
    ensures Terminated(old(buf[..]), buf[..], CmdWords(c))
    decreases c
  {
    match c
    case Exec(argv) =>
      for i := 0 to |argv|
        invariant Terminated(old(buf[..]), buf[..], set j | 0 <= j < i :: argv[j])
      {
        assert argv[i] in CmdWords(c);
        buf[argv[i].eq] := '\0';
      }
      assert CmdWords(c) == set j | 0 <= j < |argv| :: argv[j];
    case Redir(c', r) =>
      Nulterminate(c', buf);
      buf[r.file.eq] := '\0';
    case Pipe(a, b) =>
      Nulterminate(a, buf);
      Nulterminate(b, buf);
    case List(a, b) =>
      Nulterminate(a, buf);
      Nulterminate(b, buf);
    case Back(c') => Nulterminate(c', buf);
  }

  /** Every word of a command is a word of the line it was parsed from. */
  ghost predicate WordsFrom(words: set<Tok>, ts: seq<Tok>) {
    forall t :: t in words ==> t in ts && t.kind == Word
  }

  ghost function Files(rs: seq<Redirection>): set<Tok> {
    set j | 0 <= j < |rs| :: rs[j].file
  }

  lemma {:induction false} WrapWords(c: Cmd, rs: seq<Redirection>)
    ensures CmdWords(Wrap(c, rs)) == CmdWords(c) + Files(rs)
    decreases |rs|
  {
    if rs != [] {
      WrapWords(c, rs[..|rs| - 1]);
      assert Files(rs) == Files(rs[..|rs| - 1]) + {rs[|rs| - 1].file};
    }
  }

  lemma {:induction false} BackWords(c: Cmd, n: nat)
    ensures CmdWords(Backs(c, n)) == CmdWords(c)
  {
    if n > 0 {
      BackWords(c, n - 1);
    }
  }

  lemma FilesOf(a: seq<Redirection>, b: seq<Redirection>)
    ensures Files(a + b) == Files(a) + Files(b)
  {
    forall t | t in Files(b) ensures t in Files(a + b) {
      var j :| 0 <= j < |b| && b[j].file == t;
      assert (a + b)[|a| + j].file == t;
    }
    forall t | t in Files(a) ensures t in Files(a + b) {
      var j :| 0 <= j < |a| && a[j].file == t;
      assert (a + b)[j].file == t;
    }
  }

  lemma {:induction false} RedirWords(rs: RedirTrees)
    requires RedirsOk(rs)
    ensures WordsFrom(Files(RedirList(rs)), YieldRedirs(rs))
  {
    if rs.MoreRedirs? {
      RedirWords(rs.others);
      FilesOf([RedirOf(rs.op.kind, rs.file)], RedirList(rs.others));
    }
  }

  lemma {:induction false} ArgWords(args: ArgTrees)
    requires ArgsOk(args)
    ensures WordsFrom((set t | t in Words(args)) + Files(ArgRedirs(args)), YieldArgs(args))
  {
    if args.MoreArgs? {
      ArgWords(args.others);
      RedirWords(args.redirs);
      FilesOf(RedirList(args.redirs), ArgRedirs(args.others));
    }
  }

  lemma {:induction false} ExecWords(e: ExecTree)
    requires ExecOk(e)
    ensures WordsFrom(CmdWords(ExecCmd(e)), YieldExec(e))
    decreases e
  {
    match e
    case Block(_, line, _, redirs) =>
      LineWords(line);
      RedirWords(redirs);
      WrapWords(LineCmd(line), RedirList(redirs));
    case Simple(redirs, args) =>
      RedirWords(redirs);
      ArgWords(args);
      FilesOf(RedirList(redirs), ArgRedirs(args));
      WrapWords(Exec(Words(args)), RedirList(redirs) + ArgRedirs(args));
  }

  lemma {:induction false} PipeWords(p: PipeTree)
    requires PipeOk(p)
    ensures WordsFrom(CmdWords(PipeCmd(p)), YieldPipe(p))
    decreases p
  {
    hide ExecCmd, YieldExec, ExecOk;
    ExecWords(p.exec);
    if p.BarTree? {
      PipeWords(p.rest);
    }
  }

  lemma {:induction false} LineWords(l: LineTree)
    requires LineOk(l)
    ensures WordsFrom(CmdWords(LineCmd(l)), YieldLine(l))
    decreases l
  {
    hide PipeCmd, YieldPipe, PipeOk, Backs;
    PipeWords(l.pipe);
    BackWords(PipeCmd(l.pipe), |l.amps|);
    if l.SemiTree? {
      LineWords(l.rest);
    }
  }

  /** As a C string, what starts at t.q in the buffer is what the token was in the line. */
  ghost predicate ReadsAs(buf: string, line: string, t: Tok) {
    && t.q < t.eq <= |line| < |buf| && buf[t.eq] == '\0'
    && forall k :: t.q <= k < t.eq ==> buf[k] == line[k] != '\0'
  }

  lemma WordSpans(line: string, words: set<Tok>, t: Tok)
    requires WordsFrom(words, Lex(line, 0)) && t in words
    ensures Spans(line, t) && t.kind == Word && t.q < t.eq <= |line| && t.eq in Ends(words)
  {
    hide Lex;
    LexSpans(line, 0);
  }

  lemma NotAnEnd(line: string, words: set<Tok>, t: Tok, k: nat)
    requires WordsFrom(words, Lex(line, 0)) && t in words && t.q <= k < t.eq
    ensures k !in Ends(words)
  {
    hide Lex, WordsFrom;
    WordSpans(line, words, t);
    if k in Ends(words) {
      var u :| u in words && u.eq == k;
      WordSpans(line, words, u);
    }
  }

  /** The NULs end the words and fall into none of them. */
  lemma WordsRead(line: string, was: string, now: string, words: set<Tok>, t: Tok)
    requires was == line + ['\0'] && (forall k :: 0 <= k < |line| ==> line[k] != '\0')
    requires WordsFrom(words, Lex(line, 0)) && Terminated(was, now, words) && t in words
    ensures ReadsAs(now, line, t)
  {
    hide Lex, WordsFrom, Ends, Spans, Terminated;
    WordSpans(line, words, t);
    forall k | t.q <= k < t.eq ensures k < |now| && now[k] == line[k] != '\0' {
      CharKept(line, was, now, words, t, k);
    }
    EndSet(line, was, now, words, t);
  }

  lemma CharKept(line: string, was: string, now: string, words: set<Tok>, t: Tok, k: nat)
    requires was == line + ['\0'] && (forall j :: 0 <= j < |line| ==> line[j] != '\0')
    requires WordsFrom(words, Lex(line, 0)) && Terminated(was, now, words) && t in words && t.q <= k < t.eq
    ensures k < |line| < |now| && now[k] == line[k] != '\0'
  {
    hide Lex, WordsFrom, Ends, Spans;
    WordSpans(line, words, t);
    NotAnEnd(line, words, t, k);
  }

  lemma EndSet(line: string, was: string, now: string, words: set<Tok>, t: Tok)
    requires |was| == |line| + 1 && WordsFrom(words, Lex(line, 0)) && Terminated(was, now, words) && t in words
    ensures t.eq <= |line| < |now| && now[t.eq] == '\0'
  {
    hide Lex, WordsFrom, Ends, Spans;
    WordSpans(line, words, t);
  }

  /** Parse the NUL-terminated line in buf. On success the tree covers the whole line, the command does what the
      line asks for, and every argument and file name reads as its token did. */
  method Parsecmd(buf: array<char>) returns (r: Outcome<Cmd>)
    requires buf.Length > 0 && buf[buf.Length - 1] == '\0' && forall k :: 0 <= k < buf.Length - 1 ==> buf[k] != '\0'
    modifies buf
    ensures var line := old(buf[..buf.Length - 1]); var ts := Lex(line, 0);
            match r {
              case Panic(_) => buf[..] == old(buf[..]) && forall l, c :: !TreeFor(l, ts, c)
              case Value(c) =>
                && (exists l :: DoesLine(line, ts, l, c))
                && forall t :: t in CmdWords(c) ==> ReadsAs(buf[..], line, t)
            }
  {
    hide Lex, ParseLine, LineOk, YieldLine, LineCmd, ReadsAs, CmdWords, Terminated, WordsFrom, PeekFound, DoesLine;
    var line := buf[..buf.Length - 1];
    ghost var ts := Lex(line, 0);
    var p := new Parser(line);
    r := p.Parseline();
    FailIff(ts);
    if r.Panic? {
      return;
    }
    var b := p.PeekAt("");
    if p.s != |line| {
      return Panic(Syntax);
    }
    var c := r.value;
    ParseIff(ts, c);
    ghost var l: LineTree :| TreeFor(l, ts, c);
    TreeDoesLine(line, l, c);
    assert DoesLine(line, ts, l, c);
    LineWords(l);
    WordsFit(line, CmdWords(c));
    Nulterminate(c, buf);
    forall t | t in CmdWords(c) ensures ReadsAs(buf[..], line, t) {
      WordsRead(line, old(buf[..]), buf[..], CmdWords(c), t);
    }
  }

  lemma WordsFit(line: string, words: set<Tok>)
    requires WordsFrom(words, Lex(line, 0))
    ensures forall t :: t in words ==> t.eq <= |line|
  {
    hide Lex, WordsFrom;
    forall t | t in words ensures t.eq <= |line| {
      WordSpans(line, words, t);
    }
  }
}
