/** The shell's grammar, and the parser as a function on tokens:

      line   ::= pipe { & } [ ; line ]
      pipe   ::= exec [ | pipe ]
      exec   ::= ( line ) redirs  |  redirs { word redirs }
      redirs ::= { (< or > or >>) word }

    with fewer than MAXARGS words in an exec. */
module ShellGrammar {
  import opened ShellLexer

  const MAXARGS: nat := 10

  /** A redirection: the file's name, the mode it is opened in and the descriptor it replaces. */
  datatype Redirection = Redirection(file: Tok, mode: nat, fd: nat)

  datatype Cmd =
    | Exec(argv: seq<Tok>)
    | Redir(cmd: Cmd, redir: Redirection)
    | Pipe(left: Cmd, right: Cmd)
    | List(left: Cmd, right: Cmd)
    | Back(cmd: Cmd)

  const O_RDONLY: nat := 0
  const O_WRONLY_CREATE: nat := 0x201

  predicate IsRedir(k: Kind) {
    k == Lt || k == Gt || k == GtGt
  }

  /** >> opens the file just as > does. */
  function RedirOf(op: Kind, file: Tok): Redirection {
    if op == Lt then Redirection(file, O_RDONLY, 0) else Redirection(file, O_WRONLY_CREATE, 1)
  }

  /** Redirections around a command, the last outermost. */
  function Wrap(c: Cmd, rs: seq<Redirection>): Cmd {
    if rs == [] then c else Redir(Wrap(c, rs[..|rs| - 1]), rs[|rs| - 1])
  }

  // ----- parse trees

  datatype RedirTrees = NoRedirs | MoreRedirs(op: Tok, file: Tok, others: RedirTrees)
  datatype ArgTrees = NoArgs | MoreArgs(word: Tok, redirs: RedirTrees, others: ArgTrees)
  datatype ExecTree =
    | Block(open: Tok, line: LineTree, close: Tok, redirs: RedirTrees)
    | Simple(redirs: RedirTrees, args: ArgTrees)
  datatype PipeTree = LastExec(exec: ExecTree) | BarTree(exec: ExecTree, bar: Tok, rest: PipeTree)
  datatype LineTree =
    | LastPipe(pipe: PipeTree, amps: seq<Tok>)
    | SemiTree(pipe: PipeTree, amps: seq<Tok>, semi: Tok, rest: LineTree)

  function YieldRedirs(rs: RedirTrees): seq<Tok> {
    match rs
    case NoRedirs => []
    case MoreRedirs(op, file, others) => [op, file] + YieldRedirs(others)
  }

  function YieldArgs(args: ArgTrees): seq<Tok> {
    match args
    case NoArgs => []
    case MoreArgs(word, redirs, others) => [word] + YieldRedirs(redirs) + YieldArgs(others)
  }

  function YieldExec(e: ExecTree): seq<Tok> {
    match e
    case Block(open, line, close, redirs) => [open] + YieldLine(line) + [close] + YieldRedirs(redirs)
    case Simple(redirs, args) => YieldRedirs(redirs) + YieldArgs(args)
  }

  function YieldPipe(p: PipeTree): seq<Tok> {
    match p
    case LastExec(exec) => YieldExec(exec)
    case BarTree(exec, bar, rest) => YieldExec(exec) + [bar] + YieldPipe(rest)
  }

  /** The tokens of a line, from left to right. */
  function YieldLine(l: LineTree): seq<Tok> {
    match l
    case LastPipe(pipe, amps) => YieldPipe(pipe) + amps
    case SemiTree(pipe, amps, semi, rest) => YieldPipe(pipe) + amps + [semi] + YieldLine(rest)
  }

  ghost predicate RedirsOk(rs: RedirTrees) {
    rs.MoreRedirs? ==> IsRedir(rs.op.kind) && rs.file.kind == Word && RedirsOk(rs.others)
  }

  ghost predicate ArgsOk(args: ArgTrees) {
    args.MoreArgs? ==> args.word.kind == Word && RedirsOk(args.redirs) && ArgsOk(args.others)
  }

  ghost predicate ExecOk(e: ExecTree) {
    match e
    case Block(open, line, close, redirs) =>
      open.kind == LParen && close.kind == RParen && LineOk(line) && RedirsOk(redirs)
    case Simple(redirs, args) => RedirsOk(redirs) && ArgsOk(args) && |Words(args)| < MAXARGS
  }

  ghost predicate PipeOk(p: PipeTree) {
    match p
    case LastExec(exec) => ExecOk(exec)
    case BarTree(exec, bar, rest) => ExecOk(exec) && bar.kind == Bar && PipeOk(rest)
  }

  ghost predicate AmpsOk(amps: seq<Tok>) {
    forall j :: 0 <= j < |amps| ==> amps[j].kind == Amp
  }

  /** Every token is of the kind the grammar has in its place. */
  ghost predicate LineOk(l: LineTree) {
    match l
    case LastPipe(pipe, amps) => PipeOk(pipe) && AmpsOk(amps)
    case SemiTree(pipe, amps, semi, rest) => PipeOk(pipe) && AmpsOk(amps) && semi.kind == Semi && LineOk(rest)
  }

  // ----- the command a parse tree stands for

  function RedirList(rs: RedirTrees): seq<Redirection> {
    match rs
    case NoRedirs => []
    case MoreRedirs(op, file, others) => [RedirOf(op.kind, file)] + RedirList(others)
  }

  function Words(args: ArgTrees): seq<Tok> {
    match args
    case NoArgs => []
    case MoreArgs(word, _, others) => [word] + Words(others)
  }

  function ArgRedirs(args: ArgTrees): seq<Redirection> {
    match args
    case NoArgs => []
    case MoreArgs(_, redirs, others) => RedirList(redirs) + ArgRedirs(others)
  }

  function ExecCmd(e: ExecTree): Cmd {
    match e
    case Block(_, line, _, redirs) => Wrap(LineCmd(line), RedirList(redirs))
    case Simple(redirs, args) => Wrap(Exec(Words(args)), RedirList(redirs) + ArgRedirs(args))
  }

  function PipeCmd(p: PipeTree): Cmd {
    match p
    case LastExec(exec) => ExecCmd(exec)
    case BarTree(exec, _, rest) => Pipe(ExecCmd(exec), PipeCmd(rest))
  }

  function Backs(c: Cmd, n: nat): Cmd {
    if n == 0 then c else Back(Backs(c, n - 1))
  }

  function LineCmd(l: LineTree): Cmd {
    match l
    case LastPipe(pipe, amps) => Backs(PipeCmd(pipe), |amps|)
    case SemiTree(pipe, amps, _, rest) => List(Backs(PipeCmd(pipe), |amps|), LineCmd(rest))
  }

  // ----- the parser on tokens

  datatype Error = Syntax | MissingFile | MissingParen | TooManyArgs

  datatype Parse<+T> = Fail(error: Error) | Ok(value: T, rest: seq<Tok>)

  predicate Next(ts: seq<Tok>, k: Kind) {
    ts != [] && ts[0].kind == k
  }

  predicate NextRedir(ts: seq<Tok>) {
    ts != [] && IsRedir(ts[0].kind)
  }

  /** Where parseexec stops collecting arguments. */
  predicate Stops(ts: seq<Tok>) {
    ts == [] || ts[0].kind == Bar || ts[0].kind == RParen || ts[0].kind == Amp || ts[0].kind == Semi
  }

  function ParseRedirs(ts: seq<Tok>): (r: Parse<seq<Redirection>>)
    ensures r.Ok? ==> |r.rest| <= |ts|
    decreases |ts|
  {
    if !NextRedir(ts) then Ok([], ts)
    else if |ts| < 2 || ts[1].kind != Word then Fail(MissingFile)
    else
      match ParseRedirs(ts[2..])
      case Fail(e) => Fail(e)
      case Ok(rs, rest) => Ok([RedirOf(ts[0].kind, ts[1])] + rs, rest)
  }

  function ParseArgs(argv: seq<Tok>, rs: seq<Redirection>, ts: seq<Tok>): (r: Parse<Cmd>)
    ensures r.Ok? ==> |r.rest| <= |ts|
    decreases |ts|
  {
    if Stops(ts) then Ok(Wrap(Exec(argv), rs), ts)
    else if ts[0].kind != Word then Fail(Syntax)
    else if |argv| + 1 >= MAXARGS then Fail(TooManyArgs)
    else
      match ParseRedirs(ts[1..])
      case Fail(e) => Fail(e)
      case Ok(more, rest) => ParseArgs(argv + [ts[0]], rs + more, rest)
  }

  function ParseExec(ts: seq<Tok>): (r: Parse<Cmd>)
    ensures r.Ok? ==> |r.rest| <= |ts|
    decreases |ts|, 0
  {
    if Next(ts, LParen) then
      match ParseLine(ts[1..])
      case Fail(e) => Fail(e)
      case Ok(c, rest) =>
        if !Next(rest, RParen) then Fail(MissingParen)
        else
          match ParseRedirs(rest[1..])
          case Fail(e) => Fail(e)
          case Ok(rs, rest') => Ok(Wrap(c, rs), rest')
    else
      match ParseRedirs(ts)
      case Fail(e) => Fail(e)
      case Ok(rs, rest) => ParseArgs([], rs, rest)
  }

  function ParsePipe(ts: seq<Tok>): (r: Parse<Cmd>)
    ensures r.Ok? ==> |r.rest| <= |ts|
    decreases |ts|, 1
  {
    match ParseExec(ts)
    case Fail(e) => Fail(e)
    case Ok(c, rest) =>
      if !Next(rest, Bar) then Ok(c, rest)
      else
        match ParsePipe(rest[1..])
        case Fail(e) => Fail(e)
        case Ok(c', rest') => Ok(Pipe(c, c'), rest')
  }

  /** How many & tokens come first. */
  function Amps(ts: seq<Tok>): (n: nat)
    ensures n <= |ts| && (forall j :: 0 <= j < n ==> ts[j].kind == Amp) && !Next(ts[n..], Amp)
  {
    if !Next(ts, Amp) then 0 else 1 + Amps(ts[1..])
  }

  function ParseLine(ts: seq<Tok>): (r: Parse<Cmd>)
    ensures r.Ok? ==> |r.rest| <= |ts|
    decreases |ts|, 2
  {
    match ParsePipe(ts)
    case Fail(e) => Fail(e)
    case Ok(c, rest) =>
      var n := Amps(rest);
      if !Next(rest[n..], Semi) then Ok(Backs(c, n), rest[n..])
      else
        match ParseLine(rest[n + 1..])
        case Fail(e) => Fail(e)
        case Ok(c', rest') => Ok(List(Backs(c, n), c'), rest')
  }

  /** parsecmd: the whole line must be used up. */
  function ParseAll(ts: seq<Tok>): Parse<Cmd> {
    match ParseLine(ts)
    case Fail(e) => Fail(e)
    case Ok(c, rest) => if rest == [] then Ok(c, []) else Fail(Syntax)
  }
}
