/** Two consequences of the shell's grammar that a reader of other shells would not expect. */
module ShellLaws {
  import opened ShellLexer
  import opened ShellGrammar
  import opened ShellParse

  // ----- & ends a command, and no command may follow it

  /** What may come after an &. */
  const CLOSERS: set<Kind> := {Amp, Semi, RParen}

  ghost predicate AmpsClose(ts: seq<Tok>) {
    forall k :: 0 <= k < |ts| - 1 && ts[k].kind == Amp ==> ts[k + 1].kind in CLOSERS
  }

  predicate EndsInAmp(ts: seq<Tok>) {
    ts != [] && ts[|ts| - 1].kind == Amp
  }

  lemma AppendAmps(a: seq<Tok>, b: seq<Tok>)
    requires AmpsClose(a) && AmpsClose(b) && (EndsInAmp(a) && b != [] ==> b[0].kind in CLOSERS)
    ensures AmpsClose(a + b) && (EndsInAmp(a + b) <==> if b == [] then EndsInAmp(a) else EndsInAmp(b))
  {
    var ts := a + b;
    forall k | 0 <= k < |ts| - 1 && ts[k].kind == Amp ensures ts[k + 1].kind in CLOSERS {
      if k == |a| - 1 {
        assert ts[k + 1] == b[0];
      } else if k < |a| {
        assert ts[k + 1] == a[k + 1];
      } else {
        assert ts[k] == b[k - |a|] && ts[k + 1] == b[k + 1 - |a|];
      }
    }
  }

  lemma {:induction false} RedirsHaveNone(rs: RedirTrees)
    requires RedirsOk(rs)
    ensures AmpsClose(YieldRedirs(rs)) && !EndsInAmp(YieldRedirs(rs))
  {
    if rs.MoreRedirs? {
      RedirsHaveNone(rs.others);
      AppendAmps([rs.op, rs.file], YieldRedirs(rs.others));
    }
  }

  lemma {:induction false} ArgsHaveNone(args: ArgTrees)
    requires ArgsOk(args)
    ensures AmpsClose(YieldArgs(args)) && !EndsInAmp(YieldArgs(args))
  {
    if args.MoreArgs? {
      RedirsHaveNone(args.redirs);
      ArgsHaveNone(args.others);
      AppendAmps([args.word], YieldRedirs(args.redirs));
      AppendAmps([args.word] + YieldRedirs(args.redirs), YieldArgs(args.others));
    }
  }

  lemma {:induction false} ExecAmps(e: ExecTree)
    requires ExecOk(e)
    ensures AmpsClose(YieldExec(e)) && !EndsInAmp(YieldExec(e))
    decreases e
  {
    hide AmpsClose;
    RedirsHaveNone(e.redirs);
    match e
    case Block(open, line, close, redirs) =>
      LineAmps(line);
      OneToken(open);
      OneToken(close);
      AppendAmps([open], YieldLine(line));
      AppendAmps([open] + YieldLine(line), [close]);
      AppendAmps([open] + YieldLine(line) + [close], YieldRedirs(redirs));
    case Simple(redirs, args) =>
      ArgsHaveNone(args);
      AppendAmps(YieldRedirs(redirs), YieldArgs(args));
  }

  lemma OneToken(t: Tok)
    ensures AmpsClose([t])
  {
  }

  lemma {:induction false} PipeAmps(p: PipeTree)
    requires PipeOk(p)
    ensures AmpsClose(YieldPipe(p)) && !EndsInAmp(YieldPipe(p))
    decreases p
  {
    hide AmpsClose;
    ExecAmps(p.exec);
    if p.BarTree? {
      PipeAmps(p.rest);
      OneToken(p.bar);
      AppendAmps(YieldExec(p.exec), [p.bar]);
      AppendAmps(YieldExec(p.exec) + [p.bar], YieldPipe(p.rest));
    }
  }

  lemma {:induction false} LineAmps(l: LineTree)
    requires LineOk(l)
    ensures AmpsClose(YieldLine(l))
    decreases l
  {
    assert AmpsClose(l.amps);
    hide AmpsClose;
    PipeAmps(l.pipe);
    AppendAmps(YieldPipe(l.pipe), l.amps);
    if l.SemiTree? {
      LineAmps(l.rest);
      OneToken(l.semi);
      AppendAmps(YieldPipe(l.pipe) + l.amps, [l.semi]);
      AppendAmps(YieldPipe(l.pipe) + l.amps + [l.semi], YieldLine(l.rest));
    }
  }

  /** A line in which anything but &, ; or ) follows an & has no parse tree, so parsecmd gives up. */
  lemma NothingFollowsAmp(ts: seq<Tok>, k: nat)
    requires k + 1 < |ts| && ts[k].kind == Amp && ts[k + 1].kind !in CLOSERS
    ensures ParseAll(ts).Fail? && forall l, c :: !TreeFor(l, ts, c)
  {
    FailIff(ts);
    if l, c :| TreeFor(l, ts, c) {
      LineAmps(l);
    }
  }

  /** For example `a & b`. */
  lemma BackgroundThenMore()
    ensures ParseAll(Lex("a & b", 0)).Fail?
  {
    var line := "a & b";
    assert Skip(line, 0) == 0 && Skip(line, 1) == 2 && Skip(line, 3) == 4 && Skip(line, 5) == 5;
    assert WordEnd(line, 0) == 1 && WordEnd(line, 4) == 5;
    assert Lex(line, 5) == [];
    assert Lex(line, 3) == [Tok(Word, 4, 5)];
    assert Lex(line, 1) == [Tok(Amp, 2, 3)] + Lex(line, 3);
    assert Lex(line, 0) == [Tok(Word, 0, 1)] + Lex(line, 1);
    NothingFollowsAmp(Lex(line, 0), 1);
  }

  // ----- >> means >

  function OverwritingTok(t: Tok): Tok {
    if t.kind == GtGt then t.(kind := Gt) else t
  }

  /** The line with every >> replaced by >. */
  function Overwriting(ts: seq<Tok>): (r: seq<Tok>)
    ensures |r| == |ts| && forall k :: 0 <= k < |ts| ==> r[k] == OverwritingTok(ts[k])
  {
    seq(|ts|, k requires 0 <= k < |ts| => OverwritingTok(ts[k]))
  }

  function AlsoOverwriting<T>(p: Parse<T>): Parse<T> {
    match p
    case Fail(e) => Fail(e)
    case Ok(v, rest) => Ok(v, Overwriting(rest))
  }

  lemma TailOverwriting(ts: seq<Tok>, k: nat)
    requires k <= |ts|
    ensures Overwriting(ts)[k..] == Overwriting(ts[k..])
  {
  }

  lemma {:induction false} RedirsOverwriting(ts: seq<Tok>)
    ensures ParseRedirs(Overwriting(ts)) == AlsoOverwriting(ParseRedirs(ts))
    decreases |ts|
  {
    if NextRedir(ts) && |ts| >= 2 {
      TailOverwriting(ts, 2);
      RedirsOverwriting(ts[2..]);
    }
  }

  lemma {:induction false} ArgsOverwriting(argv: seq<Tok>, rs: seq<Redirection>, ts: seq<Tok>)
    ensures ParseArgs(argv, rs, Overwriting(ts)) == AlsoOverwriting(ParseArgs(argv, rs, ts))
    decreases |ts|
  {
    if !Stops(ts) && ts[0].kind == Word {
      TailOverwriting(ts, 1);
      RedirsOverwriting(ts[1..]);
      var more := ParseRedirs(ts[1..]);
      if more.Ok? {
        ArgsOverwriting(argv + [ts[0]], rs + more.value, more.rest);
      }
    }
  }

  lemma {:induction false} ExecOverwriting(ts: seq<Tok>)
    ensures ParseExec(Overwriting(ts)) == AlsoOverwriting(ParseExec(ts))
    decreases |ts|, 0
  {
    if Next(ts, LParen) {
      TailOverwriting(ts, 1);
      LineOverwriting(ts[1..]);
      var line := ParseLine(ts[1..]);
      if line.Ok? && Next(line.rest, RParen) {
        TailOverwriting(line.rest, 1);
        RedirsOverwriting(line.rest[1..]);
      }
    } else {
      RedirsOverwriting(ts);
      var rs := ParseRedirs(ts);
      if rs.Ok? {
        ArgsOverwriting([], rs.value, rs.rest);
      }
    }
  }

  lemma {:induction false} PipeOverwriting(ts: seq<Tok>)
    ensures ParsePipe(Overwriting(ts)) == AlsoOverwriting(ParsePipe(ts))
    decreases |ts|, 1
  {
    ExecOverwriting(ts);
    var exec := ParseExec(ts);
    if exec.Ok? && Next(exec.rest, Bar) {
      TailOverwriting(exec.rest, 1);
      PipeOverwriting(exec.rest[1..]);
    }
  }

  lemma {:induction false} AmpsOverwriting(ts: seq<Tok>)
    ensures Amps(Overwriting(ts)) == Amps(ts)
    decreases |ts|
  {
    if Next(ts, Amp) {
      TailOverwriting(ts, 1);
      AmpsOverwriting(ts[1..]);
    }
  }

  lemma {:induction false} LineOverwriting(ts: seq<Tok>)
    ensures ParseLine(Overwriting(ts)) == AlsoOverwriting(ParseLine(ts))
    decreases |ts|, 2
  {
    hide ParsePipe, Amps, Backs, Overwriting;
    PipeOverwriting(ts);
    var pipe := ParsePipe(ts);
    if pipe.Ok? {
      AmpsOverwriting(pipe.rest);
      var n := Amps(pipe.rest);
      TailOverwriting(pipe.rest, n);
      if Next(pipe.rest[n..], Semi) {
        TailOverwriting(pipe.rest, n + 1);
        LineOverwriting(pipe.rest[n + 1..]);
      }
    }
  }

  /** >> gives the very command that > gives: the file is opened in the same mode. */
  lemma AppendOverwrites(ts: seq<Tok>)
    ensures ParseAll(Overwriting(ts)) == ParseAll(ts)
  {
    LineOverwriting(ts);
  }
}
