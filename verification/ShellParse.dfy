/** The parser accepts exactly the lines of the grammar, and builds the command of their parse tree. */
module ShellParse {
  import opened Sequences
  import opened ShellLexer
  import opened ShellGrammar

  // ----- whatever the parser accepts has a parse tree

  lemma {:induction false} RedirsSound(ts: seq<Tok>) returns (rs: RedirTrees)
    requires ParseRedirs(ts).Ok?
    ensures RedirsOk(rs) && ts == YieldRedirs(rs) + ParseRedirs(ts).rest && RedirList(rs) == ParseRedirs(ts).value
    decreases |ts|
  {
    if NextRedir(ts) {
      var others := RedirsSound(ts[2..]);
      rs := MoreRedirs(ts[0], ts[1], others);
      assert ts == [ts[0], ts[1]] + ts[2..];
      Assoc([ts[0], ts[1]], YieldRedirs(others), ParseRedirs(ts).rest);
    } else {
      rs := NoRedirs;
    }
  }

  lemma ArgsStep(argv: seq<Tok>, rs: seq<Redirection>, ts: seq<Tok>)
    requires !Stops(ts) && ParseArgs(argv, rs, ts).Ok?
    ensures ts != [] && ts[0].kind == Word && |argv| + 1 < MAXARGS && ParseRedirs(ts[1..]).Ok?
    ensures var next := ParseRedirs(ts[1..]);
            ParseArgs(argv, rs, ts) == ParseArgs(argv + [ts[0]], rs + next.value, next.rest)
  {
    hide ParseRedirs;
  }

  lemma ArgsStop(argv: seq<Tok>, rs: seq<Redirection>, ts: seq<Tok>)
    requires Stops(ts) && |argv| < MAXARGS
    ensures ArgsOk(NoArgs) && Words(NoArgs) == [] && YieldArgs(NoArgs) == [] && ArgRedirs(NoArgs) == []
    ensures ParseArgs(argv, rs, ts) == Ok(Wrap(Exec(argv + []), rs + []), ts)
  {
    assert argv + [] == argv && rs + [] == rs;
  }

  lemma MoreArgsParts(word: Tok, redirs: RedirTrees, others: ArgTrees)
    ensures var args := MoreArgs(word, redirs, others);
            && ArgsOk(args) == (word.kind == Word && RedirsOk(redirs) && ArgsOk(others))
            && YieldArgs(args) == [word] + YieldRedirs(redirs) + YieldArgs(others)
            && Words(args) == [word] + Words(others) && ArgRedirs(args) == RedirList(redirs) + ArgRedirs(others)
  {
  }

  lemma {:induction false} ArgsSound(argv: seq<Tok>, rs: seq<Redirection>, ts: seq<Tok>) returns (args: ArgTrees)
    requires ParseArgs(argv, rs, ts).Ok? && |argv| < MAXARGS
    ensures ArgsOk(args) && |argv| + |Words(args)| < MAXARGS && ts == YieldArgs(args) + ParseArgs(argv, rs, ts).rest
    ensures ParseArgs(argv, rs, ts).value == Wrap(Exec(argv + Words(args)), rs + ArgRedirs(args))
    decreases |ts|
  {
    hide *;
    if Stops(ts) {
      args := NoArgs;
      ArgsStop(argv, rs, ts);
    } else {
      ArgsStep(argv, rs, ts);
      var redirs := RedirsSound(ts[1..]);
      var more, rest := ParseRedirs(ts[1..]).value, ParseRedirs(ts[1..]).rest;
      var others := ArgsSound(argv + [ts[0]], rs + more, rest);
      args := MoreArgs(ts[0], redirs, others);
      MoreArgsParts(ts[0], redirs, others);
      var end := ParseArgs(argv, rs, ts).rest;
      assert ts == [ts[0]] + (YieldRedirs(redirs) + (YieldArgs(others) + end));
      Assoc([ts[0]], YieldRedirs(redirs), YieldArgs(others) + end);
      Assoc([ts[0]] + YieldRedirs(redirs), YieldArgs(others), end);
      Assoc(argv, [ts[0]], Words(others));
      Assoc(rs, more, ArgRedirs(others));
    }
  }

  lemma {:induction false} ExecSound(ts: seq<Tok>) returns (e: ExecTree)
    requires ParseExec(ts).Ok?
    ensures ExecOk(e) && ts == YieldExec(e) + ParseExec(ts).rest && ExecCmd(e) == ParseExec(ts).value
    decreases |ts|, 0
  {
    hide ParseLine, ParsePipe, ParseRedirs, ParseArgs, YieldLine, YieldPipe, YieldRedirs, YieldArgs, LineCmd, PipeCmd;
    hide Wrap, RedirList, ArgRedirs, Words, LineOk, RedirsOk, ArgsOk;
    if Next(ts, LParen) {
      var line := LineSound(ts[1..]);
      var rest := ParseLine(ts[1..]).rest;
      var redirs := RedirsSound(rest[1..]);
      e := Block(ts[0], line, rest[0], redirs);
      var end := ParseExec(ts).rest;
      assert ts == [ts[0]] + ts[1..] && rest == [rest[0]] + rest[1..];
      assert ts == [ts[0]] + (YieldLine(line) + ([rest[0]] + (YieldRedirs(redirs) + end)));
      Brackets(ts[0], YieldLine(line), rest[0], YieldRedirs(redirs), end);
    } else {
      var redirs := RedirsSound(ts);
      var args := ArgsSound([], ParseRedirs(ts).value, ParseRedirs(ts).rest);
      e := Simple(redirs, args);
      assert [] + Words(args) == Words(args);
      Assoc(YieldRedirs(redirs), YieldArgs(args), ParseExec(ts).rest);
    }
  }

  lemma Brackets(a: Tok, s: seq<Tok>, b: Tok, t: seq<Tok>, end: seq<Tok>)
    ensures [a] + s + [b] + t + end == [a] + (s + ([b] + (t + end)))
  {
  }

  lemma {:induction false} PipeSound(ts: seq<Tok>) returns (p: PipeTree)
    requires ParsePipe(ts).Ok?
    ensures PipeOk(p) && ts == YieldPipe(p) + ParsePipe(ts).rest && PipeCmd(p) == ParsePipe(ts).value
    decreases |ts|, 1
  {
    hide ParseLine, ParseExec, YieldExec, YieldLine, ExecCmd, LineCmd, ExecOk, LineOk;
    var e := ExecSound(ts);
    var rest := ParseExec(ts).rest;
    if Next(rest, Bar) {
      var more := PipeSound(rest[1..]);
      p := BarTree(e, rest[0], more);
      assert rest == [rest[0]] + rest[1..];
      Assoc4(YieldExec(e), [rest[0]], YieldPipe(more), ParsePipe(ts).rest);
    } else {
      p := LastExec(e);
    }
  }

  lemma {:induction false} LineSound(ts: seq<Tok>) returns (l: LineTree)
    requires ParseLine(ts).Ok?
    ensures LineOk(l) && ts == YieldLine(l) + ParseLine(ts).rest && LineCmd(l) == ParseLine(ts).value
    decreases |ts|, 2
  {
    hide ParsePipe, ParseExec, YieldExec, YieldPipe, ExecCmd, PipeCmd, ExecOk, PipeOk, Amps, Backs;
    var p := PipeSound(ts);
    var rest := ParsePipe(ts).rest;
    var n := Amps(rest);
    assert rest == rest[..n] + rest[n..];
    if Next(rest[n..], Semi) {
      var more := LineSound(rest[n + 1..]);
      l := SemiTree(p, rest[..n], rest[n], more);
      assert rest[n..] == [rest[n]] + rest[n + 1..];
      Assoc(YieldPipe(p) + rest[..n], [rest[n]], YieldLine(more) + ParseLine(ts).rest);
      Assoc(YieldPipe(p), rest[..n], rest[n..]);
      Assoc(YieldPipe(p) + rest[..n] + [rest[n]], YieldLine(more), ParseLine(ts).rest);
    } else {
      l := LastPipe(p, rest[..n]);
      Assoc(YieldPipe(p), rest[..n], rest[n..]);
    }
  }

  // ----- and whatever has a parse tree is accepted

  lemma {:induction false} RedirsComplete(rs: RedirTrees, rest: seq<Tok>)
    requires RedirsOk(rs) && !NextRedir(rest)
    ensures ParseRedirs(YieldRedirs(rs) + rest) == Ok(RedirList(rs), rest)
    ensures rs.MoreRedirs? ==> YieldRedirs(rs) != [] && YieldRedirs(rs)[0] == rs.op
    decreases rs
  {
    var ts := YieldRedirs(rs) + rest;
    if rs.NoRedirs? {
      assert ts == rest;
    } else {
      RedirsComplete(rs.others, rest);
      Assoc([rs.op, rs.file], YieldRedirs(rs.others), rest);
      assert ts[2..] == YieldRedirs(rs.others) + rest && ts[0] == rs.op && ts[1] == rs.file;
    }
  }

  lemma {:induction false} ArgsComplete(argv: seq<Tok>, rs: seq<Redirection>, args: ArgTrees, rest: seq<Tok>)
    requires ArgsOk(args) && |argv| + |Words(args)| < MAXARGS && Stops(rest)
    ensures !NextRedir(YieldArgs(args) + rest) && !Next(YieldArgs(args) + rest, LParen)
    ensures ParseArgs(argv, rs, YieldArgs(args) + rest)
            == Ok(Wrap(Exec(argv + Words(args)), rs + ArgRedirs(args)), rest)
    decreases args
  {
    hide Wrap, RedirOf, ParseRedirs, YieldRedirs, RedirList, RedirsOk;
    var ts := YieldArgs(args) + rest;
    if args.NoArgs? {
      assert ts == rest && argv + [] == argv && rs + [] == rs;
    } else {
      var w, redirs, others := args.word, args.redirs, args.others;
      ArgsComplete(argv + [w], rs + RedirList(redirs), others, rest);
      RedirsComplete(redirs, YieldArgs(others) + rest);
      Assoc([w], YieldRedirs(redirs), YieldArgs(others));
      Assoc([w], YieldRedirs(redirs) + YieldArgs(others), rest);
      Assoc(YieldRedirs(redirs), YieldArgs(others), rest);
      assert ts[0] == w && ts[1..] == YieldRedirs(redirs) + (YieldArgs(others) + rest);
      Assoc(argv, [w], Words(others));
      Assoc(rs, RedirList(redirs), ArgRedirs(others));
    }
  }

  lemma {:induction false} ExecComplete(e: ExecTree, rest: seq<Tok>)
    requires ExecOk(e) && Stops(rest)
    ensures ParseExec(YieldExec(e) + rest) == Ok(ExecCmd(e), rest)
    decreases e
  {
    hide ParseLine, ParsePipe, ParseRedirs, ParseArgs, YieldLine, YieldPipe, YieldRedirs, YieldArgs, LineCmd, PipeCmd;
    hide Wrap, RedirList, ArgRedirs, Words, LineOk, RedirsOk, ArgsOk;
    var ts := YieldExec(e) + rest;
    match e
    case Block(open, line, close, redirs) =>
      var after := [close] + (YieldRedirs(redirs) + rest);
      StopsNoRedir(rest);
      LineComplete(line, after);
      RedirsComplete(redirs, rest);
      Brackets(open, YieldLine(line), close, YieldRedirs(redirs), rest);
      assert ts[0] == open && ts[1..] == YieldLine(line) + after;
      assert after[0] == close && after[1..] == YieldRedirs(redirs) + rest;
    case Simple(redirs, args) =>
      ArgsComplete([], RedirList(redirs), args, rest);
      RedirsComplete(redirs, YieldArgs(args) + rest);
      Assoc(YieldRedirs(redirs), YieldArgs(args), rest);
      RedirsFirst(redirs, YieldArgs(args) + rest);
      assert [] + Words(args) == Words(args);
  }

  lemma StopsNoRedir(rest: seq<Tok>)
    requires Stops(rest)
    ensures !NextRedir(rest)
  {
  }

  lemma RedirsFirst(redirs: RedirTrees, after: seq<Tok>)
    requires RedirsOk(redirs) && !Next(after, LParen)
    ensures !Next(YieldRedirs(redirs) + after, LParen)
  {
  }

  lemma {:induction false} PipeComplete(p: PipeTree, rest: seq<Tok>)
    requires PipeOk(p) && Stops(rest) && !Next(rest, Bar)
    ensures ParsePipe(YieldPipe(p) + rest) == Ok(PipeCmd(p), rest)
    decreases p
  {
    hide ParseLine, ParseExec, YieldExec, YieldLine, ExecCmd, LineCmd, ExecOk, LineOk;
    match p
    case LastExec(e) => ExecComplete(e, rest);
    case BarTree(e, bar, more) =>
      var after := [bar] + (YieldPipe(more) + rest);
      ExecComplete(e, after);
      PipeComplete(more, rest);
      Assoc4(YieldExec(e), [bar], YieldPipe(more), rest);
      assert after[1..] == YieldPipe(more) + rest;
  }

  lemma {:induction false} AmpsComplete(amps: seq<Tok>, rest: seq<Tok>)
    requires AmpsOk(amps) && !Next(rest, Amp)
    ensures Amps(amps + rest) == |amps|
  {
    var ts := amps + rest;
    if amps == [] {
      assert ts == rest;
    } else {
      AmpsComplete(amps[1..], rest);
      assert ts[0] == amps[0] && ts[1..] == amps[1..] + rest;
    }
  }

  lemma {:induction false} LineComplete(l: LineTree, rest: seq<Tok>)
    requires LineOk(l) && (rest == [] || Next(rest, RParen))
    ensures ParseLine(YieldLine(l) + rest) == Ok(LineCmd(l), rest)
    decreases l
  {
    hide ParsePipe, ParseExec, YieldExec, YieldPipe, ExecCmd, PipeCmd, ExecOk, PipeOk, Amps, Backs;
    var after := if l.LastPipe? then rest else [l.semi] + (YieldLine(l.rest) + rest);
    PipeComplete(l.pipe, l.amps + after);
    AmpsComplete(l.amps, after);
    assert (l.amps + after)[|l.amps|..] == after;
    if l.LastPipe? {
      Assoc(YieldPipe(l.pipe), l.amps, rest);
    } else {
      LineComplete(l.rest, rest);
      Assoc4(YieldPipe(l.pipe) + l.amps, [l.semi], YieldLine(l.rest), rest);
      Assoc(YieldPipe(l.pipe), l.amps, after);
      assert (l.amps + after)[|l.amps| + 1..] == YieldLine(l.rest) + rest;
    }
  }

  /** l is a parse tree of the tokens that stands for c. */
  ghost predicate TreeFor(l: LineTree, ts: seq<Tok>, c: Cmd) {
    LineOk(l) && YieldLine(l) == ts && LineCmd(l) == c
  }

  /** The parser yields c exactly when the whole line has a parse tree that stands for c. */
  lemma ParseIff(ts: seq<Tok>, c: Cmd)
    ensures ParseAll(ts) == Ok(c, []) <==> exists l :: TreeFor(l, ts, c)
  {
    if ParseAll(ts) == Ok(c, []) {
      var l := LineSound(ts);
      assert TreeFor(l, ts, c);
    }
    if l :| TreeFor(l, ts, c) {
      LineComplete(l, []);
      assert YieldLine(l) + [] == ts;
    }
  }

  /** It fails exactly when there is no parse tree. */
  lemma FailIff(ts: seq<Tok>)
    ensures ParseAll(ts).Fail? <==> forall l, c :: !TreeFor(l, ts, c)
  {
    if ParseAll(ts).Ok? {
      ParseIff(ts, ParseAll(ts).value);
    } else {
      forall l, c ensures !TreeFor(l, ts, c) {
        ParseIff(ts, c);
      }
    }
  }
}
