/** What a line makes the shell do: runcmd as a function from commands to the files it opens and the programs it
    starts, and the same read off the characters of the line. */
module ShellMeaning {
  import opened Sequences
  import opened ShellLexer
  import opened ShellGrammar
  import opened ShellParse

  // ----- runcmd

  /** Where a program reads or writes: what the shell had, a file, or the pipe with this number. */
  datatype Stream = Inherited | File(name: Tok, mode: nat) | PipeEnd(number: nat)

  datatype Io = Io(input: Stream, output: Stream)

  datatype Act = Opens(name: Tok, mode: nat, fd: nat) | Starts(argv: seq<Tok>, io: Io, background: bool)

  /** The streams after close(fd) and open. */
  function Replaced(io: Io, r: Redirection): Io {
    if r.fd == 0 then io.(input := File(r.file, r.mode))
    else if r.fd == 1 then io.(output := File(r.file, r.mode)) else io
  }

  function Pipes(c: Cmd): nat {
    match c
    case Exec(_) => 0
    case Redir(c', _) => Pipes(c')
    case Pipe(a, b) => Pipes(a) + 1 + Pipes(b)
    case List(a, b) => Pipes(a) + Pipes(b)
    case Back(c') => Pipes(c')
  }

  /** What runcmd does with these streams, when pipes are numbered from n on. */
  function Run(c: Cmd, io: Io, background: bool, n: nat): seq<Act> {
    match c
    case Exec(argv) => if argv == [] then [] else [Starts(argv, io, background)]
    case Redir(c', r) => [Opens(r.file, r.mode, r.fd)] + Run(c', Replaced(io, r), background, n)
    case Pipe(a, b) =>
      Run(a, io.(output := PipeEnd(n)), background, n + 1)
      + Run(b, io.(input := PipeEnd(n)), background, n + 1 + Pipes(a))
    case List(a, b) => Run(a, io, background, n) + Run(b, io, background, n + Pipes(a))
    case Back(c') => Run(c', io, true, n)
  }

  // ----- the line, character by character

  /** The token is in the line: its first character says of which kind it is. */
  predicate InLine(line: string, t: Tok) {
    t.q < |line| && if t.kind == Word then !IsSymbol(line[t.q]) else line[t.q] == Lead(t.kind)
  }

  ghost predicate AllIn(line: string, ts: seq<Tok>) {
    forall j :: 0 <= j < |ts| ==> InLine(line, ts[j])
  }

  predicate Redirects(line: string, t: Tok)
    requires t.q < |line|
  {
    line[t.q] == '<' || line[t.q] == '>'
  }

  /** The redirections in the line, from left to right: < opens the next word for reading (mode 0) as descriptor 0,
      > and >> open it for writing (mode 0x201) as descriptor 1. */
  function RedirsIn(line: string, ts: seq<Tok>): seq<Redirection>
    requires forall j :: 0 <= j < |ts| ==> ts[j].q < |line|
  {
    if |ts| < 2 then []
    else
      var more := RedirsIn(line, ts[1..]);
      if line[ts[0].q] == '<' then [Redirection(ts[1], 0, 0)] + more
      else if line[ts[0].q] == '>' then [Redirection(ts[1], 0x201, 1)] + more else more
  }

  /** The words in the line that are not the file of a redirection. */
  function ArgsIn(line: string, ts: seq<Tok>, afterRedirect: bool): seq<Tok>
    requires forall j :: 0 <= j < |ts| ==> ts[j].q < |line|
  {
    if ts == [] then []
    else
      var more := ArgsIn(line, ts[1..], Redirects(line, ts[0]));
      if IsSymbol(line[ts[0].q]) || afterRedirect then more else [ts[0]] + more
  }

  function BarsIn(line: string, ts: seq<Tok>): nat
    requires forall j :: 0 <= j < |ts| ==> ts[j].q < |line|
  {
    if ts == [] then 0 else (if line[ts[0].q] == '|' then 1 else 0) + BarsIn(line, ts[1..])
  }

  /** The file of the first redirection of this descriptor. */
  function FirstFor(rs: seq<Redirection>, fd: nat, otherwise: Stream): Stream {
    if rs == [] then otherwise
    else if rs[0].fd == fd then File(rs[0].file, rs[0].mode) else FirstFor(rs[1..], fd, otherwise)
  }

  /** Of several redirections of a descriptor the first one in the line counts. */
  function Redirected(rs: seq<Redirection>, io: Io): Io {
    Io(FirstFor(rs, 0, io.input), FirstFor(rs, 1, io.output))
  }

  /** The files are opened from right to left. */
  function OpensOf(rs: seq<Redirection>): seq<Act> {
    if rs == [] then [] else OpensOf(rs[1..]) + [Opens(rs[0].file, rs[0].mode, rs[0].fd)]
  }

  function MeansExec(line: string, e: ExecTree, io: Io, background: bool, n: nat): seq<Act>
    requires AllIn(line, YieldExec(e))
  {
    match e
    case Simple(_, _) =>
      var rs, argv := RedirsIn(line, YieldExec(e)), ArgsIn(line, YieldExec(e), false);
      OpensOf(rs) + if argv == [] then [] else [Starts(argv, Redirected(rs, io), background)]
    case Block(open, l, close, redirs) =>
      BlockParts(line, e);
      var rs := RedirsIn(line, YieldRedirs(redirs));
      OpensOf(rs) + MeansLine(line, l, Redirected(rs, io), background, n)
  }

  function MeansPipe(line: string, p: PipeTree, io: Io, background: bool, n: nat): seq<Act>
    requires AllIn(line, YieldPipe(p))
  {
    PipeParts(line, p);
    match p
    case LastExec(e) => MeansExec(line, e, io, background, n)
    case BarTree(e, _, rest) =>
      MeansExec(line, e, io.(output := PipeEnd(n)), background, n + 1)
      + MeansPipe(line, rest, io.(input := PipeEnd(n)), background, n + 1 + BarsIn(line, YieldExec(e)))
  }

  /** What the line asks for: commands from left to right, each with the streams that pipes and redirections around
      it give it, and in the background when & follows it. */
  function MeansLine(line: string, l: LineTree, io: Io, background: bool, n: nat): seq<Act>
    requires AllIn(line, YieldLine(l))
  {
    LineParts(line, l);
    var first := MeansPipe(line, l.pipe, io, background || l.amps != [], n);
    match l
    case LastPipe(_, _) => first
    case SemiTree(p, _, _, rest) => first + MeansLine(line, rest, io, background, n + BarsIn(line, YieldPipe(p)))
  }

  lemma AllInParts(line: string, a: seq<Tok>, b: seq<Tok>)
    ensures AllIn(line, a + b) <==> AllIn(line, a) && AllIn(line, b)
  {
    if AllIn(line, a + b) {
      forall j | 0 <= j < |a| ensures InLine(line, a[j]) {
        assert (a + b)[j] == a[j];
      }
      forall j | 0 <= j < |b| ensures InLine(line, b[j]) {
        assert (a + b)[|a| + j] == b[j];
      }
    }
  }

  lemma BlockParts(line: string, e: ExecTree)
    requires AllIn(line, YieldExec(e)) && e.Block?
    ensures AllIn(line, YieldLine(e.line)) && AllIn(line, YieldRedirs(e.redirs)) && AllIn(line, [e.open])
    ensures AllIn(line, [e.close]) && AllIn(line, [e.open] + YieldLine(e.line) + [e.close])
  {
    hide AllIn;
    AllInParts(line, [e.open] + YieldLine(e.line) + [e.close], YieldRedirs(e.redirs));
    AllInParts(line, [e.open] + YieldLine(e.line), [e.close]);
    AllInParts(line, [e.open], YieldLine(e.line));
  }

  lemma PipeParts(line: string, p: PipeTree)
    requires AllIn(line, YieldPipe(p))
    ensures AllIn(line, YieldExec(p.exec))
    ensures p.BarTree? ==> AllIn(line, YieldPipe(p.rest)) && AllIn(line, [p.bar])
    ensures p.BarTree? ==> AllIn(line, YieldExec(p.exec) + [p.bar])
  {
    hide AllIn;
    if p.BarTree? {
      AllInParts(line, YieldExec(p.exec) + [p.bar], YieldPipe(p.rest));
      AllInParts(line, YieldExec(p.exec), [p.bar]);
    }
  }

  lemma LineParts(line: string, l: LineTree)
    requires AllIn(line, YieldLine(l))
    ensures AllIn(line, YieldPipe(l.pipe)) && AllIn(line, l.amps) && AllIn(line, YieldPipe(l.pipe) + l.amps)
    ensures l.SemiTree? ==> AllIn(line, YieldLine(l.rest)) && AllIn(line, [l.semi])
    ensures l.SemiTree? ==> AllIn(line, YieldPipe(l.pipe) + l.amps + [l.semi])
  {
    hide AllIn;
    AllInParts(line, YieldPipe(l.pipe), l.amps);
    if l.SemiTree? {
      AllInParts(line, YieldPipe(l.pipe) + l.amps + [l.semi], YieldLine(l.rest));
      AllInParts(line, YieldPipe(l.pipe) + l.amps, [l.semi]);
    }
  }

  // ----- the parts of a line, put together

  /** What is read off two parts of a line is read off the whole, unless a redirection is cut in two. */
  predicate Closed(line: string, ts: seq<Tok>)
    requires forall j :: 0 <= j < |ts| ==> ts[j].q < |line|
  {
    ts == [] || !Redirects(line, ts[|ts| - 1])
  }

  lemma Split(line: string, a: seq<Tok>, b: seq<Tok>)
    requires AllIn(line, a) && AllIn(line, b) && a != []
    ensures AllIn(line, a + b) && (a + b)[0] == a[0] && (a + b)[1..] == a[1..] + b && AllIn(line, a[1..])
    ensures |a| > 1 ==> (a + b)[1] == a[1]
  {
    hide InLine;
    AllInParts(line, a, b);
  }

  lemma {:induction false} RedirsTogether(line: string, a: seq<Tok>, b: seq<Tok>)
    requires AllIn(line, a) && AllIn(line, b) && Closed(line, a)
    ensures AllIn(line, a + b) && RedirsIn(line, a + b) == RedirsIn(line, a) + RedirsIn(line, b)
    decreases |a|
  {
    if a == [] {
      assert a + b == b;
    } else {
      Split(line, a, b);
      RedirsTogether(line, a[1..], b);
      hide IsSymbol, Lead;
    }
  }

  lemma {:induction false} BarsTogether(line: string, a: seq<Tok>, b: seq<Tok>)
    requires AllIn(line, a) && AllIn(line, b)
    ensures AllIn(line, a + b) && BarsIn(line, a + b) == BarsIn(line, a) + BarsIn(line, b)
    decreases |a|
  {
    if a == [] {
      assert a + b == b;
    } else {
      Split(line, a, b);
      BarsTogether(line, a[1..], b);
    }
  }

  lemma {:induction false} ArgsTogether(line: string, a: seq<Tok>, b: seq<Tok>, after: bool)
    requires AllIn(line, a) && AllIn(line, b)
    ensures AllIn(line, a + b)
    ensures ArgsIn(line, a + b, after)
            == ArgsIn(line, a, after) + ArgsIn(line, b, if a == [] then after else Redirects(line, a[|a| - 1]))
    decreases |a|
  {
    hide IsSymbol, Lead;
    if a == [] {
      assert a + b == b;
    } else {
      Split(line, a, b);
      ArgsTogether(line, a[1..], b, Redirects(line, a[0]));
      hide Redirects;
      var more := ArgsIn(line, a[1..], Redirects(line, a[0]));
      var end := ArgsIn(line, b, Redirects(line, a[|a| - 1]));
      Assoc([a[0]], more, end);
    }
  }

  /** A part of a line that is read for itself. */
  ghost predicate Reads(line: string, ts: seq<Tok>, rs: seq<Redirection>, args: seq<Tok>, bars: nat) {
    && AllIn(line, ts) && Closed(line, ts) && RedirsIn(line, ts) == rs && ArgsIn(line, ts, false) == args
    && BarsIn(line, ts) == bars
  }

  lemma ReadsTogether(line: string, a: seq<Tok>, rs: seq<Redirection>, args: seq<Tok>, bars: nat,
                      b: seq<Tok>, rs': seq<Redirection>, args': seq<Tok>, bars': nat)
    requires Reads(line, a, rs, args, bars) && Reads(line, b, rs', args', bars')
    ensures Reads(line, a + b, rs + rs', args + args', bars + bars')
  {
    hide RedirsIn, ArgsIn, BarsIn, InLine;
    RedirsTogether(line, a, b);
    BarsTogether(line, a, b);
    ArgsTogether(line, a, b, false);
  }

  lemma ReadsNone(line: string)
    ensures Reads(line, [], [], [], 0)
  {
  }

  lemma ReadsMark(line: string, t: Tok)
    requires InLine(line, t) && t.kind in {Bar, LParen, RParen, Semi, Amp}
    ensures Reads(line, [t], [], [], if t.kind == Bar then 1 else 0)
  {
  }

  lemma ReadsWord(line: string, t: Tok)
    requires InLine(line, t) && t.kind == Word
    ensures Reads(line, [t], [], [t], 0)
  {
  }

  lemma ReadsRedir(line: string, op: Tok, file: Tok)
    requires InLine(line, op) && IsRedir(op.kind) && InLine(line, file) && file.kind == Word
    ensures Reads(line, [op, file], [RedirOf(op.kind, file)], [], 0)
  {
    assert [op, file][1..] == [file] && [file][1..] == [];
    assert RedirsIn(line, [file]) == [] && BarsIn(line, [file]) == 0;
    assert ArgsIn(line, [file], true) == ArgsIn(line, [], false) == [];
  }

  lemma {:induction false} ReadsAmps(line: string, amps: seq<Tok>)
    requires AllIn(line, amps) && AmpsOk(amps)
    ensures Reads(line, amps, [], [], 0)
  {
    if amps == [] {
      ReadsNone(line);
    } else {
      assert amps == [amps[0]] + amps[1..];
      ReadsMark(line, amps[0]);
      ReadsAmps(line, amps[1..]);
      ReadsTogether(line, [amps[0]], [], [], 0, amps[1..], [], [], 0);
    }
  }

  lemma {:induction false} ReadsRedirs(line: string, rs: RedirTrees)
    requires RedirsOk(rs) && AllIn(line, YieldRedirs(rs))
    ensures Reads(line, YieldRedirs(rs), RedirList(rs), [], 0)
  {
    hide Reads;
    if rs.NoRedirs? {
      ReadsNone(line);
    } else {
      AllInParts(line, [rs.op, rs.file], YieldRedirs(rs.others));
      assert [rs.op, rs.file][0] == rs.op && [rs.op, rs.file][1] == rs.file;
      ReadsRedir(line, rs.op, rs.file);
      ReadsRedirs(line, rs.others);
      ReadsTogether(line, [rs.op, rs.file], [RedirOf(rs.op.kind, rs.file)], [], 0, YieldRedirs(rs.others),
                    RedirList(rs.others), [], 0);
      var none: seq<Tok> := [];
      assert none + none == none;
    }
  }

  lemma {:induction false} ReadsArgs(line: string, args: ArgTrees)
    requires ArgsOk(args) && AllIn(line, YieldArgs(args))
    ensures Reads(line, YieldArgs(args), ArgRedirs(args), Words(args), 0)
  {
    hide Reads, RedirList;
    if args.NoArgs? {
      ReadsNone(line);
    } else {
      var word, redirs, others := args.word, args.redirs, args.others;
      AllInParts(line, [word] + YieldRedirs(redirs), YieldArgs(others));
      AllInParts(line, [word], YieldRedirs(redirs));
      assert [word][0] == word;
      ReadsWord(line, word);
      ReadsRedirs(line, redirs);
      ReadsArgs(line, others);
      ReadsTogether(line, [word], [], [word], 0, YieldRedirs(redirs), RedirList(redirs), [], 0);
      ReadsTogether(line, [word] + YieldRedirs(redirs), [] + RedirList(redirs), [word] + [], 0, YieldArgs(others),
                    ArgRedirs(others), Words(others), 0);
      assert [] + RedirList(redirs) == RedirList(redirs) && [word] + [] == [word];
    }
  }

  // ----- redirections around a command

  lemma {:induction false} LastIsOutermost(rs: seq<Redirection>, fd: nat, otherwise: Stream, r: Redirection)
    ensures FirstFor(rs + [r], fd, otherwise)
            == FirstFor(rs, fd, if r.fd == fd then File(r.file, r.mode) else otherwise)
  {
    if rs != [] {
      assert (rs + [r])[1..] == rs[1..] + [r];
      LastIsOutermost(rs[1..], fd, otherwise, r);
    }
  }

  lemma {:induction false} OpensLast(rs: seq<Redirection>, r: Redirection)
    ensures OpensOf(rs + [r]) == [Opens(r.file, r.mode, r.fd)] + OpensOf(rs)
  {
    if rs != [] {
      assert (rs + [r])[1..] == rs[1..] + [r];
      OpensLast(rs[1..], r);
    } else {
      assert (rs + [r])[1..] == [];
    }
  }

  lemma {:induction false} RunWrapped(c: Cmd, rs: seq<Redirection>, io: Io, background: bool, n: nat)
    ensures Run(Wrap(c, rs), io, background, n) == OpensOf(rs) + Run(c, Redirected(rs, io), background, n)
    ensures Pipes(Wrap(c, rs)) == Pipes(c)
    decreases |rs|
  {
    if rs == [] {
      assert OpensOf(rs) == [] && Redirected(rs, io) == io;
    } else {
      var m := |rs| - 1;
      var r, inner := rs[m], rs[..m];
      assert rs == inner + [r];
      RunWrapped(c, inner, Replaced(io, r), background, n);
      LastIsOutermost(inner, 0, io.input, r);
      LastIsOutermost(inner, 1, io.output, r);
      assert Redirected(rs, io) == Redirected(inner, Replaced(io, r));
      OpensLast(inner, r);
      Assoc([Opens(r.file, r.mode, r.fd)], OpensOf(inner), Run(c, Redirected(rs, io), background, n));
    }
  }

  lemma {:induction false} RunBacks(c: Cmd, k: nat, io: Io, background: bool, n: nat)
    ensures Run(Backs(c, k), io, background, n) == Run(c, io, background || k > 0, n) && Pipes(Backs(c, k)) == Pipes(c)
  {
    if k > 0 {
      RunBacks(c, k - 1, io, true, n);
    }
  }

  // ----- the command does what the line asks for

  /** All redirections of a command, and all its arguments, in the order of the line. */
  function RedirsOf(c: Cmd): seq<Redirection> {
    match c
    case Exec(_) => []
    case Redir(c', r) => RedirsOf(c') + [r]
    case Pipe(a, b) => RedirsOf(a) + RedirsOf(b)
    case List(a, b) => RedirsOf(a) + RedirsOf(b)
    case Back(c') => RedirsOf(c')
  }

  function ArgsOf(c: Cmd): seq<Tok> {
    match c
    case Exec(argv) => argv
    case Redir(c', _) => ArgsOf(c')
    case Pipe(a, b) => ArgsOf(a) + ArgsOf(b)
    case List(a, b) => ArgsOf(a) + ArgsOf(b)
    case Back(c') => ArgsOf(c')
  }

  lemma {:induction false} WrappedParts(c: Cmd, rs: seq<Redirection>)
    ensures RedirsOf(Wrap(c, rs)) == RedirsOf(c) + rs && ArgsOf(Wrap(c, rs)) == ArgsOf(c)
    decreases |rs|
  {
    if rs == [] {
      assert RedirsOf(c) + rs == RedirsOf(c);
    } else {
      var m := |rs| - 1;
      WrappedParts(c, rs[..m]);
      assert rs == rs[..m] + [rs[m]];
      Assoc(RedirsOf(c), rs[..m], [rs[m]]);
    }
  }

  lemma {:induction false} BackParts(c: Cmd, k: nat)
    ensures RedirsOf(Backs(c, k)) == RedirsOf(c) && ArgsOf(Backs(c, k)) == ArgsOf(c)
  {
    if k > 0 {
      BackParts(c, k - 1);
    }
  }

  /** Command c of the tokens ts: they read as it does. */
  ghost predicate Spells(line: string, ts: seq<Tok>, c: Cmd) {
    Reads(line, ts, RedirsOf(c), ArgsOf(c), Pipes(c))
  }

  lemma SimpleSpells(line: string, redirs: RedirTrees, args: ArgTrees)
    requires RedirsOk(redirs) && ArgsOk(args) && AllIn(line, YieldRedirs(redirs) + YieldArgs(args))
    ensures Reads(line, YieldRedirs(redirs) + YieldArgs(args), RedirList(redirs) + ArgRedirs(args), Words(args), 0)
    ensures var c := Wrap(Exec(Words(args)), RedirList(redirs) + ArgRedirs(args));
            Spells(line, YieldRedirs(redirs) + YieldArgs(args), c)
  {
    hide Reads, RedirList, ArgRedirs, Words, Wrap;
    AllInParts(line, YieldRedirs(redirs), YieldArgs(args));
    ReadsRedirs(line, redirs);
    ReadsArgs(line, args);
    ReadsTogether(line, YieldRedirs(redirs), RedirList(redirs), [], 0, YieldArgs(args), ArgRedirs(args), Words(args),
                  0);
    assert [] + Words(args) == Words(args);
    var rs := RedirList(redirs) + ArgRedirs(args);
    WrappedParts(Exec(Words(args)), rs);
    RunWrapped(Exec(Words(args)), rs, Io(Inherited, Inherited), false, 0);
    assert [] + rs == rs;
  }

  lemma {:induction false} ExecMeans(line: string, e: ExecTree, io: Io, background: bool, n: nat)
    requires ExecOk(e) && AllIn(line, YieldExec(e))
    ensures Run(ExecCmd(e), io, background, n) == MeansExec(line, e, io, background, n)
    ensures Spells(line, YieldExec(e), ExecCmd(e))
    decreases e
  {
    hide Reads, Run, Wrap, RedirList, ArgRedirs, Words, RedirsIn, ArgsIn, OpensOf, Redirected;
    match e
    case Simple(redirs, args) => SimpleMeans(line, e, io, background, n);
    case Block(open, l, close, redirs) =>
      BlockParts(line, e);
      ReadsRedirs(line, redirs);
      RedirsRead(line, redirs);
      var rs := RedirList(redirs);
      RunWrapped(LineCmd(l), rs, io, background, n);
      LineMeans(line, l, Redirected(rs, io), background, n);
      BlockSpells(line, e);
  }

  lemma RedirsRead(line: string, redirs: RedirTrees)
    requires RedirsOk(redirs) && AllIn(line, YieldRedirs(redirs))
    ensures RedirsIn(line, YieldRedirs(redirs)) == RedirList(redirs)
  {
    hide RedirsIn, RedirList, AllIn, ArgsIn, BarsIn;
    ReadsRedirs(line, redirs);
  }

  lemma SimpleMeans(line: string, e: ExecTree, io: Io, background: bool, n: nat)
    requires e.Simple? && ExecOk(e) && AllIn(line, YieldExec(e))
    ensures Run(ExecCmd(e), io, background, n) == MeansExec(line, e, io, background, n)
    ensures Spells(line, YieldExec(e), ExecCmd(e))
  {
    hide RedirsIn, ArgsIn, BarsIn, AllIn, Wrap, RedirList, ArgRedirs, Words, OpensOf, Redirected;
    SimpleSpells(line, e.redirs, e.args);
    RunWrapped(Exec(Words(e.args)), RedirList(e.redirs) + ArgRedirs(e.args), io, background, n);
  }

  lemma BlockSpells(line: string, e: ExecTree)
    requires e.Block? && ExecOk(e) && AllIn(line, YieldExec(e)) && Spells(line, YieldLine(e.line), LineCmd(e.line))
    ensures Spells(line, YieldExec(e), ExecCmd(e))
  {
    BlockParts(line, e);
    assert [e.open][0] == e.open && [e.close][0] == e.close;
    hide Reads, RedirList, LineCmd, Wrap;
    var c, rs := LineCmd(e.line), RedirList(e.redirs);
    ReadsMark(line, e.open);
    ReadsMark(line, e.close);
    ReadsRedirs(line, e.redirs);
    ReadsTogether(line, [e.open], [], [], 0, YieldLine(e.line), RedirsOf(c), ArgsOf(c), Pipes(c));
    assert [] + RedirsOf(c) == RedirsOf(c) && [] + ArgsOf(c) == ArgsOf(c);
    ReadsTogether(line, [e.open] + YieldLine(e.line), RedirsOf(c), ArgsOf(c), Pipes(c), [e.close], [], [], 0);
    assert RedirsOf(c) + [] == RedirsOf(c) && ArgsOf(c) + [] == ArgsOf(c);
    ReadsTogether(line, [e.open] + YieldLine(e.line) + [e.close], RedirsOf(c), ArgsOf(c), Pipes(c),
                  YieldRedirs(e.redirs), rs, [], 0);
    WrappedParts(c, rs);
    RunWrapped(c, rs, Io(Inherited, Inherited), false, 0);
  }

  lemma {:induction false} PipeMeans(line: string, p: PipeTree, io: Io, background: bool, n: nat)
    requires PipeOk(p) && AllIn(line, YieldPipe(p))
    ensures Run(PipeCmd(p), io, background, n) == MeansPipe(line, p, io, background, n)
    ensures Spells(line, YieldPipe(p), PipeCmd(p))
    decreases p
  {
    hide Reads, MeansExec, ExecCmd, YieldExec, ExecOk;
    PipeParts(line, p);
    match p
    case LastExec(e) => ExecMeans(line, e, io, background, n);
    case BarTree(e, bar, rest) =>
      ExecMeans(line, e, io.(output := PipeEnd(n)), background, n + 1);
      BarsRead(line, YieldExec(e), ExecCmd(e));
      PipeMeans(line, rest, io.(input := PipeEnd(n)), background, n + 1 + Pipes(ExecCmd(e)));
      assert [bar][0] == bar;
      ReadsMark(line, bar);
      SpellsAround(line, YieldExec(e), ExecCmd(e), bar, YieldPipe(rest), PipeCmd(rest));
  }

  lemma BarsRead(line: string, ts: seq<Tok>, c: Cmd)
    requires Spells(line, ts, c)
    ensures AllIn(line, ts) && BarsIn(line, ts) == Pipes(c)
  {
  }

  /** Two commands with | or ; between them. */
  lemma SpellsAround(line: string, a: seq<Tok>, c: Cmd, t: Tok, b: seq<Tok>, c': Cmd)
    requires Spells(line, a, c) && Spells(line, b, c') && InLine(line, t) && t.kind in {Bar, Semi}
    ensures Reads(line, a + [t] + b, RedirsOf(c) + RedirsOf(c'), ArgsOf(c) + ArgsOf(c'),
                  Pipes(c) + (if t.kind == Bar then 1 else 0) + Pipes(c'))
  {
    hide Reads;
    var k := if t.kind == Bar then 1 else 0;
    ReadsMark(line, t);
    ReadsTogether(line, a, RedirsOf(c), ArgsOf(c), Pipes(c), [t], [], [], k);
    assert RedirsOf(c) + [] == RedirsOf(c) && ArgsOf(c) + [] == ArgsOf(c);
    ReadsTogether(line, a + [t], RedirsOf(c), ArgsOf(c), Pipes(c) + k, b, RedirsOf(c'), ArgsOf(c'), Pipes(c'));
  }

  /** A pipeline and the & tokens after it. */
  lemma FirstMeans(line: string, p: PipeTree, amps: seq<Tok>, io: Io, background: bool, n: nat)
    requires PipeOk(p) && AllIn(line, YieldPipe(p)) && AllIn(line, amps) && AmpsOk(amps)
    requires Run(PipeCmd(p), io, background || amps != [], n) == MeansPipe(line, p, io, background || amps != [], n)
    requires Spells(line, YieldPipe(p), PipeCmd(p))
    ensures var c := Backs(PipeCmd(p), |amps|);
            && Run(c, io, background, n) == MeansPipe(line, p, io, background || amps != [], n)
            && Spells(line, YieldPipe(p) + amps, c) && Pipes(c) == BarsIn(line, YieldPipe(p))
  {
    hide Reads, Run, MeansPipe, PipeCmd, YieldPipe, PipeOk, Backs, RedirsOf, ArgsOf, Pipes, AllIn;
    var c, k := PipeCmd(p), |amps|;
    BarsRead(line, YieldPipe(p), c);
    RunBacks(c, k, io, background, n);
    BackParts(c, k);
    ReadsAmps(line, amps);
    ReadsTogether(line, YieldPipe(p), RedirsOf(c), ArgsOf(c), Pipes(c), amps, [], [], 0);
    assert RedirsOf(c) + [] == RedirsOf(c) && ArgsOf(c) + [] == ArgsOf(c);
  }

  /** The command of a parse tree does what the line asks for, and has the line's redirections and arguments. */
  lemma {:induction false} LineMeans(line: string, l: LineTree, io: Io, background: bool, n: nat)
    requires LineOk(l) && AllIn(line, YieldLine(l))
    ensures Run(LineCmd(l), io, background, n) == MeansLine(line, l, io, background, n)
    ensures Spells(line, YieldLine(l), LineCmd(l))
    decreases l
  {
    hide Reads, MeansPipe, PipeCmd, YieldPipe, PipeOk, Backs;
    LineParts(line, l);
    PipeMeans(line, l.pipe, io, background || l.amps != [], n);
    FirstMeans(line, l.pipe, l.amps, io, background, n);
    if l.SemiTree? {
      var c := Backs(PipeCmd(l.pipe), |l.amps|);
      LineMeans(line, l.rest, io, background, n + Pipes(c));
      assert [l.semi][0] == l.semi;
      SpellsAround(line, YieldPipe(l.pipe) + l.amps, c, l.semi, YieldLine(l.rest), LineCmd(l.rest));
    }
  }

  lemma {:induction false} LexInLine(line: string, s: nat)
    requires s <= |line|
    ensures AllIn(line, Lex(line, s))
    decreases |line| - s
  {
    var q := Skip(line, s);
    if q < |line| {
      LexInLine(line, TokenAt(line, q).eq);
      AllInParts(line, [TokenAt(line, q)], Lex(line, TokenAt(line, q).eq));
    }
  }

  /** c does what the line asks for, whatever streams the shell has. */
  ghost predicate DoesLine(line: string, ts: seq<Tok>, l: LineTree, c: Cmd) {
    && TreeFor(l, ts, c) && AllIn(line, ts)
    && (forall io :: Run(c, io, false, 0) == MeansLine(line, l, io, false, 0))
    && RedirsOf(c) == RedirsIn(line, ts) && ArgsOf(c) == ArgsIn(line, ts, false)
  }

  lemma TreeDoesLine(line: string, l: LineTree, c: Cmd)
    requires TreeFor(l, Lex(line, 0), c)
    ensures DoesLine(line, Lex(line, 0), l, c)
  {
    hide Lex, Run, MeansLine, LineOk, YieldLine, LineCmd, RedirsIn, ArgsIn, BarsIn;
    LexInLine(line, 0);
    forall io ensures Run(c, io, false, 0) == MeansLine(line, l, io, false, 0) {
      LineMeans(line, l, io, false, 0);
    }
    LineMeans(line, l, Io(Inherited, Inherited), false, 0);
  }
}
