/** begin_op, log_write and end_op as steps of any number of processes.

    Each event is one critical section of log.lock, except Check: log_write tests the size of the
    transaction before it takes the lock, so another process may add a block in between. */
module Transactions {
  import opened Params

  /** Where a process stands. An open operation knows the distinct blocks it has logged and how many
      times it has called log_write; Checked has passed the size test for one more block. */
  datatype Op =
    | Idle
    | Asleep
    | Open(mine: set<nat>, calls: nat)
    | Checked(mine: set<nat>, calls: nat, block: nat)
    | Committer
    | Cleared
  {
    predicate InOp() {
      Open? || Checked?
    }

    predicate InCommit() {
      Committer? || Cleared?
    }

    /** Reserved log space the operation has not used yet. */
    function Unspent(): int {
      if InOp() then MAXOPBLOCKS - |mine| else 0
    }
  }

  /** log.outstanding, log.committing and the block numbers in log.lh. */
  datatype State = State(ops: seq<Op>, outstanding: int, committing: bool, logged: set<nat>, panicked: bool)

  datatype Event =
    | Begin(p: nat)
    | Check(p: nat, block: nat)
    | Add(p: nat)
    | End(p: nat)
    | Clear(p: nat)
    | Finish(p: nat)

  function Init(n: nat): State {
    State(seq(n, _ => Idle), 0, false, {}, false)
  }

  /** What an operation may do: MAXOPBLOCKS calls of log_write, or any number of calls for at most k distinct
      blocks. */
  datatype Budget = Calls | Blocks(k: nat)

  predicate WithinBudget(op: Op, block: nat, budget: Budget)
    requires op.Open?
  {
    match budget
    case Calls => |op.mine + {block}| <= MAXOPBLOCKS && op.calls < MAXOPBLOCKS
    case Blocks(k) => |op.mine + {block}| <= k
  }

  /** begin_op reserves enough for the budget. */
  predicate Reserved(budget: Budget) {
    budget.Blocks? ==> budget.k <= MAXOPBLOCKS
  }

  predicate Enabled(s: State, e: Event, budget: Budget) {
    && !s.panicked && e.p < |s.ops|
    && match e
       case Begin(p) => s.ops[p].Idle?
       case Check(p, block) => s.ops[p].Open? && WithinBudget(s.ops[p], block, budget)
       case Add(p) => s.ops[p].Checked?
       case End(p) => s.ops[p].Open?
       case Clear(p) => s.ops[p].Committer?
       case Finish(p) => s.ops[p].Cleared?
  }

  /** wakeup(&log): sleepers go back to the top of begin_op's loop. */
  function Woken(ops: seq<Op>): (r: seq<Op>)
    ensures |r| == |ops|
  {
    seq(|ops|, i requires 0 <= i < |ops| => if ops[i].Asleep? then Idle else ops[i])
  }

  predicate MustWait(outstanding: int, committing: bool, logged: set<nat>) {
    committing || |logged| + (outstanding + 1) * MAXOPBLOCKS > LOGSIZE
  }

  /** One step, with log.size == size. */
  function Next(s: State, e: Event, size: nat, budget: Budget): State
    requires Enabled(s, e, budget)
  {
    var op := s.ops[e.p];
    match e
    case Begin(p) =>
      if MustWait(s.outstanding, s.committing, s.logged) then s.(ops := s.ops[p := Asleep])
      else s.(ops := s.ops[p := Open({}, 0)], outstanding := s.outstanding + 1)
    case Check(p, block) =>
      if |s.logged| >= LOGSIZE || |s.logged| >= size - 1 || s.outstanding < 1 then s.(panicked := true)
      else s.(ops := s.ops[p := Checked(op.mine, op.calls, block)])
    case Add(p) =>
      s.(ops := s.ops[p := Open(op.mine + {op.block}, op.calls + 1)], logged := s.logged + {op.block})
    case End(p) =>
      if s.committing then s.(panicked := true)
      else if s.outstanding - 1 == 0 then
        s.(ops := s.ops[p := Committer], outstanding := 0, committing := true)
      else
        s.(ops := Woken(s.ops)[p := Idle], outstanding := s.outstanding - 1)
    case Clear(p) =>
      s.(ops := s.ops[p := Cleared], logged := {})
    case Finish(p) =>
      s.(ops := Woken(s.ops)[p := Idle], committing := false)
  }

  ghost predicate Runs(s: State, es: seq<Event>, size: nat, budget: Budget)
    decreases |es|
  {
    es == [] || (Enabled(s, es[0], budget) && Runs(Next(s, es[0], size, budget), es[1..], size, budget))
  }

  ghost function Final(s: State, es: seq<Event>, size: nat, budget: Budget): State
    requires Runs(s, es, size, budget)
    decreases |es|
  {
    if es == [] then s else Final(Next(s, es[0], size, budget), es[1..], size, budget)
  }

  // ----- counting operations and unspent reservations

  ghost function OpenCount(ops: seq<Op>): nat {
    if ops == [] then 0 else (if ops[0].InOp() then 1 else 0) + OpenCount(ops[1..])
  }

  ghost function UnspentTotal(ops: seq<Op>): int {
    if ops == [] then 0 else ops[0].Unspent() + UnspentTotal(ops[1..])
  }

  lemma {:induction false} Replaced(ops: seq<Op>, p: nat, x: Op)
    requires p < |ops|
    ensures OpenCount(ops[p := x]) == OpenCount(ops) + (if x.InOp() then 1 else 0) - (if ops[p].InOp() then 1 else 0)
    ensures UnspentTotal(ops[p := x]) == UnspentTotal(ops) + x.Unspent() - ops[p].Unspent()
  {
    if p > 0 {
      Replaced(ops[1..], p - 1, x);
      assert ops[p := x][1..] == ops[1..][p - 1 := x];
    } else {
      assert ops[p := x][1..] == ops[1..];
    }
  }

  lemma {:induction false} WakingCounts(ops: seq<Op>)
    ensures OpenCount(Woken(ops)) == OpenCount(ops) && UnspentTotal(Woken(ops)) == UnspentTotal(ops)
  {
    if ops != [] {
      WakingCounts(ops[1..]);
      assert Woken(ops)[1..] == Woken(ops[1..]);
    }
  }

  lemma {:induction false} SomeOpen(ops: seq<Op>, p: nat)
    requires p < |ops| && ops[p].InOp()
    ensures OpenCount(ops) >= 1
  {
    if p > 0 {
      SomeOpen(ops[1..], p - 1);
    }
  }

  lemma {:induction false} UnspentBound(ops: seq<Op>)
    ensures UnspentTotal(ops) <= MAXOPBLOCKS * OpenCount(ops)
  {
    if ops != [] {
      UnspentBound(ops[1..]);
    }
  }

  lemma {:induction false} UnspentCovers(ops: seq<Op>, p: nat)
    requires p < |ops| && forall q :: 0 <= q < |ops| && ops[q].InOp() ==> |ops[q].mine| <= MAXOPBLOCKS
    ensures 0 <= ops[p].Unspent() <= UnspentTotal(ops)
  {
    if p > 0 {
      UnspentCovers(ops[1..], p - 1);
    } else if |ops| > 1 {
      UnspentCovers(ops[1..], 0);
    }
  }

  // ----- the invariant of every run

  ghost predicate OpOk(op: Op, outstanding: int, committing: bool, logged: set<nat>) {
    && (op.InOp() ==> op.mine <= logged && |op.mine| <= MAXOPBLOCKS && |op.mine| <= op.calls && !committing)
    && (op.Checked? ==> |op.mine + {op.block}| <= MAXOPBLOCKS)
    && (op.InCommit() ==> committing)
    && (op.Cleared? ==> logged == {})
    && (op.Asleep? ==> MustWait(outstanding, committing, logged))
  }

  ghost predicate Inv(s: State) {
    && s.outstanding == OpenCount(s.ops)
    && (s.committing ==> s.outstanding == 0)
    && (s.outstanding == 0 && !s.committing ==> s.logged == {})
    && |s.logged| + UnspentTotal(s.ops) <= LOGSIZE
    && (forall p :: 0 <= p < |s.ops| ==> OpOk(s.ops[p], s.outstanding, s.committing, s.logged))
    && (forall p, q :: 0 <= p < q < |s.ops| ==> !s.ops[p].InCommit() || !s.ops[q].InCommit())
  }

  lemma BeginKeeps(s: State, e: Event, size: nat, budget: Budget)
    requires Inv(s) && e.Begin? && Enabled(s, e, budget)
    ensures Inv(Next(s, e, size, budget))
  {
    hide OpenCount, UnspentTotal;
    Replaced(s.ops, e.p, Asleep);
    Replaced(s.ops, e.p, Open({}, 0));
    UnspentBound(s.ops);
    var s' := Next(s, e, size, budget);
    forall q | 0 <= q < |s.ops| ensures OpOk(s'.ops[q], s'.outstanding, s'.committing, s'.logged) {
      assert OpOk(s.ops[q], s.outstanding, s.committing, s.logged);
    }
  }

  lemma CheckKeepsOp(s: State, e: Event, budget: Budget, op: Op)
    requires e.Check? && Enabled(s, e, budget) && Reserved(budget)
    requires OpOk(op, s.outstanding, s.committing, s.logged)
    ensures op == s.ops[e.p] ==> OpOk(Checked(op.mine, op.calls, e.block), s.outstanding, s.committing, s.logged)
  {
    hide MustWait;
  }

  lemma CheckKeeps(s: State, e: Event, size: nat, budget: Budget)
    requires Inv(s) && e.Check? && Enabled(s, e, budget) && Reserved(budget)
    ensures Inv(Next(s, e, size, budget))
  {
    hide OpenCount, UnspentTotal, OpOk;
    var op := s.ops[e.p];
    Replaced(s.ops, e.p, Checked(op.mine, op.calls, e.block));
    var s' := Next(s, e, size, budget);
    forall q | 0 <= q < |s.ops| ensures OpOk(s'.ops[q], s'.outstanding, s'.committing, s'.logged) {
      assert OpOk(s.ops[q], s.outstanding, s.committing, s.logged);
      CheckKeepsOp(s, e, budget, s.ops[q]);
    }
  }

  lemma Grown(s: set<nat>, x: nat)
    ensures |s + {x}| == if x in s then |s| else |s| + 1
  {
    if x in s {
      assert s + {x} == s;
    }
  }

  lemma AddKeeps(s: State, e: Event, size: nat, budget: Budget)
    requires Inv(s) && e.Add? && Enabled(s, e, budget)
    ensures Inv(Next(s, e, size, budget))
  {
    hide OpenCount, UnspentTotal, MustWait;
    var op := s.ops[e.p];
    Replaced(s.ops, e.p, Open(op.mine + {op.block}, op.calls + 1));
    SomeOpen(s.ops, e.p);
    assert OpOk(op, s.outstanding, s.committing, s.logged);
    Grown(op.mine, op.block);
    Grown(s.logged, op.block);
    var s' := Next(s, e, size, budget);
    forall q | 0 <= q < |s.ops| ensures OpOk(s'.ops[q], s'.outstanding, s'.committing, s'.logged) {
      AddKeepsOp(s, e, size, budget, q);
    }
  }

  lemma StillWaits(s: State, b: nat)
    ensures MustWait(s.outstanding, s.committing, s.logged) ==> MustWait(s.outstanding, s.committing, s.logged + {b})
  {
    Grown(s.logged, b);
  }

  lemma AddKeepsOp(s: State, e: Event, size: nat, budget: Budget, q: nat)
    requires Inv(s) && e.Add? && Enabled(s, e, budget) && q < |s.ops|
    ensures var s' := Next(s, e, size, budget); OpOk(s'.ops[q], s'.outstanding, s'.committing, s'.logged)
  {
    hide OpenCount, UnspentTotal, MustWait;
    var op := s.ops[e.p];
    assert OpOk(op, s.outstanding, s.committing, s.logged) && OpOk(s.ops[q], s.outstanding, s.committing, s.logged);
    Grown(op.mine, op.block);
    StillWaits(s, op.block);
  }

  /** The last operation to end has no other beside it. */
  lemma NoOtherOpen(ops: seq<Op>, p: nat, q: nat)
    requires p < |ops| && q < |ops| && p != q && ops[p].InOp() && OpenCount(ops) == 1
    ensures !ops[q].InOp()
  {
    hide OpenCount;
    if ops[q].InOp() {
      Replaced(ops, p, Idle);
      SomeOpen(ops[p := Idle], q);
    }
  }

  lemma EndKeepsOp(s: State, e: Event, size: nat, budget: Budget, q: nat)
    requires Inv(s) && e.End? && Enabled(s, e, budget) && q < |s.ops|
    ensures var s' := Next(s, e, size, budget); OpOk(s'.ops[q], s'.outstanding, s'.committing, s'.logged)
  {
    hide OpenCount, UnspentTotal;
    assert OpOk(s.ops[q], s.outstanding, s.committing, s.logged);
    assert OpOk(s.ops[e.p], s.outstanding, s.committing, s.logged);
    if s.outstanding == 1 && q != e.p {
      NoOtherOpen(s.ops, e.p, q);
    }
  }

  lemma EndCounts(s: State, p: nat)
    requires Inv(s) && p < |s.ops| && s.ops[p].Open?
    ensures OpenCount(s.ops[p := Committer]) == OpenCount(Woken(s.ops)[p := Idle]) == s.outstanding - 1
    ensures UnspentTotal(s.ops[p := Committer]) == UnspentTotal(Woken(s.ops)[p := Idle]) <= UnspentTotal(s.ops)
    ensures s.outstanding >= 1
  {
    hide OpenCount, UnspentTotal;
    SomeOpen(s.ops, p);
    WakingCounts(s.ops);
    Replaced(s.ops, p, Committer);
    Replaced(Woken(s.ops), p, Idle);
    assert forall q :: 0 <= q < |s.ops| ==> OpOk(s.ops[q], s.outstanding, s.committing, s.logged);
    UnspentCovers(s.ops, p);
  }

  lemma EndKeeps(s: State, e: Event, size: nat, budget: Budget)
    requires Inv(s) && e.End? && Enabled(s, e, budget)
    ensures Inv(Next(s, e, size, budget))
  {
    hide OpenCount, UnspentTotal, OpOk;
    assert !s.committing by {
      NotCommitting(s, e.p);
    }
    EndCounts(s, e.p);
    var s' := Next(s, e, size, budget);
    forall q | 0 <= q < |s.ops| ensures OpOk(s'.ops[q], s'.outstanding, s'.committing, s'.logged) {
      EndKeepsOp(s, e, size, budget, q);
    }
    NoneCommits(s);
  }

  lemma NotCommitting(s: State, p: nat)
    requires Inv(s) && p < |s.ops| && s.ops[p].InOp()
    ensures !s.committing
  {
    assert OpOk(s.ops[p], s.outstanding, s.committing, s.logged);
  }

  lemma NoneCommits(s: State)
    requires Inv(s)
    ensures !s.committing ==> forall p :: 0 <= p < |s.ops| ==> !s.ops[p].InCommit()
  {
    forall p | 0 <= p < |s.ops| ensures OpOk(s.ops[p], s.outstanding, s.committing, s.logged) {
    }
  }

  lemma CommitKeeps(s: State, e: Event, size: nat, budget: Budget)
    requires Inv(s) && (e.Clear? || e.Finish?) && Enabled(s, e, budget)
    ensures Inv(Next(s, e, size, budget))
  {
    hide OpenCount, UnspentTotal;
    WakingCounts(s.ops);
    Replaced(s.ops, e.p, Cleared);
    Replaced(Woken(s.ops), e.p, Idle);
    UnspentBound(s.ops);
    assert OpOk(s.ops[e.p], s.outstanding, s.committing, s.logged);
    var s' := Next(s, e, size, budget);
    forall q | 0 <= q < |s.ops| ensures OpOk(s'.ops[q], s'.outstanding, s'.committing, s'.logged) {
      assert OpOk(s.ops[q], s.outstanding, s.committing, s.logged);
    }
  }

  lemma StepKeeps(s: State, e: Event, size: nat, budget: Budget)
    requires Inv(s) && Enabled(s, e, budget) && Reserved(budget)
    ensures Inv(Next(s, e, size, budget))
  {
    match e
    case Begin(_) => BeginKeeps(s, e, size, budget);
    case Check(_, _) => CheckKeeps(s, e, size, budget);
    case Add(_) => AddKeeps(s, e, size, budget);
    case End(_) => EndKeeps(s, e, size, budget);
    case Clear(_) => CommitKeeps(s, e, size, budget);
    case Finish(_) => CommitKeeps(s, e, size, budget);
  }

  lemma {:induction false} RunKeeps(s: State, es: seq<Event>, size: nat, budget: Budget)
    requires Inv(s) && Runs(s, es, size, budget) && Reserved(budget)
    ensures Inv(Final(s, es, size, budget))
    decreases |es|
  {
    if es != [] {
      StepKeeps(s, es[0], size, budget);
      RunKeeps(Next(s, es[0], size, budget), es[1..], size, budget);
    }
  }

  lemma {:induction false} InitCounts(n: nat)
    ensures OpenCount(Init(n).ops) == 0 && UnspentTotal(Init(n).ops) == 0
  {
    if n > 0 {
      InitCounts(n - 1);
      assert Init(n).ops[1..] == Init(n - 1).ops;
    }
  }

  /** Every state of every interleaving of n processes satisfies the invariant. */
  lemma ReachableKeeps(n: nat, es: seq<Event>, size: nat, budget: Budget)
    requires Runs(Init(n), es, size, budget) && Reserved(budget)
    ensures Inv(Final(Init(n), es, size, budget))
  {
    InitCounts(n);
    RunKeeps(Init(n), es, size, budget);
  }

  // ----- what follows for callers

  /** No operation spans a commit, so end_op's panic is unreachable; used and reserved log space fit. */
  lemma CommitExcludesOps(n: nat, es: seq<Event>, size: nat, budget: Budget)
    requires Runs(Init(n), es, size, budget) && Reserved(budget)
    ensures var s := Final(Init(n), es, size, budget);
            && (s.committing ==> s.outstanding == 0 && forall p :: 0 <= p < |s.ops| ==> !s.ops[p].InOp())
            && (forall p :: 0 <= p < |s.ops| && Enabled(s, End(p), budget) ==> !Next(s, End(p), size, budget).panicked)
            && 0 <= UnspentTotal(s.ops) && |s.logged| + UnspentTotal(s.ops) <= LOGSIZE
  {
    ReachableKeeps(n, es, size, budget);
    var s := Final(Init(n), es, size, budget);
    forall p | 0 <= p < |s.ops|
      ensures OpOk(s.ops[p], s.outstanding, s.committing, s.logged) && 0 <= UnspentTotal(s.ops)
    {
      UnspentCovers(s.ops, p);
    }
  }

  /** A process asleep in begin_op has a commit or an open operation ahead of it that will wake it. */
  lemma SleeperHasWaker(n: nat, es: seq<Event>, size: nat, budget: Budget, p: nat)
    requires Runs(Init(n), es, size, budget) && Reserved(budget) && p < |Final(Init(n), es, size, budget).ops|
    requires Final(Init(n), es, size, budget).ops[p].Asleep?
    ensures var s := Final(Init(n), es, size, budget);
            && MustWait(s.outstanding, s.committing, s.logged)
            && (s.committing || s.outstanding >= 1)
  {
    ReachableKeeps(n, es, size, budget);
    var s := Final(Init(n), es, size, budget);
    assert OpOk(s.ops[p], s.outstanding, s.committing, s.logged);
  }

  /** When log_write panics in a log with room for LOGSIZE blocks, the log is exactly full and the
      block it was called for is already in the operation's own part of it. */
  lemma PanicMeansFull(s: State, e: Event, size: nat, budget: Budget)
    requires Inv(s) && Enabled(s, e, budget) && Reserved(budget) && size > LOGSIZE
    ensures Next(s, e, size, budget).panicked <==> e.Check? && |s.logged| == LOGSIZE
    ensures Next(s, e, size, budget).panicked ==> e.block in s.ops[e.p].mine && budget == Blocks(MAXOPBLOCKS)
  {
    var op := s.ops[e.p];
    assert OpOk(op, s.outstanding, s.committing, s.logged);
    UnspentCovers(s.ops, e.p);
    if op.InOp() {
      SomeOpen(s.ops, e.p);
    }
    if e.Check? {
      Grown(op.mine, e.block);
    }
  }

  /** MAXOPBLOCKS calls are safe, and so are any number of calls for fewer distinct blocks. */
  lemma {:induction false} NoPanicWithRoom(s: State, es: seq<Event>, size: nat, budget: Budget)
    requires Inv(s) && Runs(s, es, size, budget) && size > LOGSIZE && !s.panicked
    requires budget.Blocks? ==> budget.k < MAXOPBLOCKS
    ensures !Final(s, es, size, budget).panicked
    decreases |es|
  {
    if es != [] {
      StepKeeps(s, es[0], size, budget);
      PanicMeansFull(s, es[0], size, budget);
      NoPanicWithRoom(Next(s, es[0], size, budget), es[1..], size, budget);
    }
  }

  // ----- a log that is too small

  lemma {:induction false} RunsThen(s: State, es: seq<Event>, e: Event, size: nat, budget: Budget)
    requires Runs(s, es, size, budget) && Enabled(Final(s, es, size, budget), e, budget)
    ensures Runs(s, es + [e], size, budget)
    ensures Final(s, es + [e], size, budget) == Next(Final(s, es, size, budget), e, size, budget)
    decreases |es|
  {
    if es == [] {
      assert (es + [e])[1..] == [];
    } else {
      RunsThen(Next(s, es[0], size, budget), es[1..], e, size, budget);
      assert (es + [e])[1..] == es[1..] + [e];
    }
  }

  /** The state after process p, in an operation, has logged block b. */
  function Logged(s: State, p: nat, b: nat): State
    requires p < |s.ops| && s.ops[p].Open?
  {
    s.(ops := s.ops[p := Open(s.ops[p].mine + {b}, s.ops[p].calls + 1)], logged := s.logged + {b})
  }

  /** log_write, test and addition, by an operation within its budget in a log with room. */
  lemma LogWriteSteps(s: State, p: nat, b: nat, size: nat)
    requires !s.panicked && p < |s.ops| && s.ops[p].Open? && |s.ops[p].mine| <= s.ops[p].calls < MAXOPBLOCKS
    requires |s.logged| < LOGSIZE && |s.logged| < size - 1 && s.outstanding >= 1
    ensures Enabled(s, Check(p, b), Calls) && Enabled(Next(s, Check(p, b), size, Calls), Add(p), Calls)
    ensures Next(Next(s, Check(p, b), size, Calls), Add(p), size, Calls) == Logged(s, p, b)
  {
    Grown(s.ops[p].mine, b);
    var s1 := Next(s, Check(p, b), size, Calls);
    assert s1.ops[p := Open(s.ops[p].mine + {b}, s.ops[p].calls + 1)] == Logged(s, p, b).ops;
  }

  /** How many of the turns 0, ..., k-1 fall to process i of three. */
  function Share(k: nat, i: nat): nat
    requires i < 3
  {
    (k + 2 - i) / 3
  }

  function Turn(k: nat): (i: nat)
    ensures i < 3
  {
    k % 3
  }

  lemma TurnsAreFair(k: nat)
    ensures k < LOGSIZE ==> Share(k, Turn(k)) < MAXOPBLOCKS
    ensures k + 1 < LOGSIZE ==> Share(k, Turn(k + 1)) < MAXOPBLOCKS
    ensures Turn(k) != Turn(k + 1)
  {
  }

  lemma TurnShares(k: nat, i: nat)
    requires i < 3
    ensures Share(k + 1, i) == Share(k, i) + if i == Turn(k) then 1 else 0
  {
  }

  ghost predicate Shared(s: State, k: nat) {
    && |s.ops| == 3 && s.outstanding == 3 && !s.committing && !s.panicked
    && (forall i :: 0 <= i < 3 ==> s.ops[i].Open? && |s.ops[i].mine| <= s.ops[i].calls == Share(k, i))
    && |s.logged| == k && (forall b :: b in s.logged ==> b < k)
    && (k > 0 ==> k - 1 in s.ops[Turn(k - 1)].mine && k - 1 in s.logged)
  }

  lemma LoggedIsShared(s: State, k: nat)
    requires Shared(s, k)
    ensures Shared(Logged(s, Turn(k), k), k + 1)
  {
    Grown(s.ops[Turn(k)].mine, k);
    Grown(s.logged, k);
    var s' := Logged(s, Turn(k), k);
    forall i | 0 <= i < 3 ensures s'.ops[i].Open? && |s'.ops[i].mine| <= s'.ops[i].calls == Share(k + 1, i) {
      TurnShares(k, i);
    }
  }

  /** Three operations that take turns have logged blocks 0, ..., k-1. */
  ghost function Sharing(k: nat): (s: State)
    ensures Shared(s, k)
  {
    if k == 0 then State([Open({}, 0), Open({}, 0), Open({}, 0)], 3, false, {}, false)
    else LoggedIsShared(Sharing(k - 1), k - 1); Logged(Sharing(k - 1), Turn(k - 1), k - 1)
  }

  function TurnEvents(k: nat): seq<Event> {
    if k == 0 then [Begin(0), Begin(1), Begin(2)]
    else TurnEvents(k - 1) + [Check(Turn(k - 1), k - 1)] + [Add(Turn(k - 1))]
  }

  lemma {:induction false} ThreeBegin(size: nat)
    ensures Runs(Init(3), TurnEvents(0), size, Calls) && Final(Init(3), TurnEvents(0), size, Calls) == Sharing(0)
  {
    var e: seq<Event> := [];
    RunsThen(Init(3), e, Begin(0), size, Calls);
    RunsThen(Init(3), e + [Begin(0)], Begin(1), size, Calls);
    RunsThen(Init(3), e + [Begin(0)] + [Begin(1)], Begin(2), size, Calls);
    assert e + [Begin(0)] + [Begin(1)] + [Begin(2)] == TurnEvents(0);
    assert Final(Init(3), TurnEvents(0), size, Calls).ops == Sharing(0).ops;
  }

  lemma TurnTaken(k: nat, size: nat)
    requires k < LOGSIZE && k < size - 1
    ensures var s, check, add := Sharing(k), Check(Turn(k), k), Add(Turn(k));
            && Enabled(s, check, Calls) && Enabled(Next(s, check, size, Calls), add, Calls)
            && Next(Next(s, check, size, Calls), add, size, Calls) == Sharing(k + 1)
  {
    TurnsAreFair(k);
    LogWriteSteps(Sharing(k), Turn(k), k, size);
  }

  /** Three operations sharing the log fill it block by block, up to its size. */
  lemma {:induction false} TurnsFill(k: nat, size: nat)
    requires k <= LOGSIZE && k <= size - 1
    ensures Runs(Init(3), TurnEvents(k), size, Calls) && Final(Init(3), TurnEvents(k), size, Calls) == Sharing(k)
  {
    hide Runs, Final, Next, Enabled, Sharing, Turn;
    if k == 0 {
      ThreeBegin(size);
    } else {
      TurnsFill(k - 1, size);
      TurnTaken(k - 1, size);
      var check, add := Check(Turn(k - 1), k - 1), Add(Turn(k - 1));
      RunsThen(Init(3), TurnEvents(k - 1), check, size, Calls);
      RunsThen(Init(3), TurnEvents(k - 1) + [check], add, size, Calls);
    }
  }

  ghost predicate SomeRunPanics(size: nat, budget: Budget) {
    exists n: nat, es :: Runs(Init(n), es, size, budget) && Final(Init(n), es, size, budget).panicked
  }

  lemma NoRoomPanics(s: State, k: nat, size: nat)
    requires Shared(s, k) && k < LOGSIZE && k >= size - 1
    ensures Enabled(s, Check(Turn(k), k), Calls) && Next(s, Check(Turn(k), k), size, Calls).panicked
  {
    TurnsAreFair(k);
    Grown(s.ops[Turn(k)].mine, k);
  }

  lemma SmallLogPanics(size: nat)
    requires size <= LOGSIZE
    ensures SomeRunPanics(size, Calls)
  {
    hide Runs, Final, Next, Enabled, Sharing, Shared, Turn, TurnEvents;
    var k := if size == 0 then 0 else size - 1;
    if size == 0 {
      ThreeBegin(size);
    } else {
      TurnsFill(k, size);
    }
    var e := Check(Turn(k), k);
    NoRoomPanics(Sharing(k), k, size);
    RunsThen(Init(3), TurnEvents(k), e, size, Calls);
    assert Runs(Init(3), TurnEvents(k) + [e], size, Calls);
  }

  /** With every operation within its budget of calls, log_write can panic exactly when the log area
      has no more than LOGSIZE blocks, header included, as mkfs lays it out. */
  lemma PanicIff(size: nat)
    ensures SomeRunPanics(size, Calls) <==> size <= LOGSIZE
  {
    if size <= LOGSIZE {
      SmallLogPanics(size);
    } else {
      forall n: nat, es | Runs(Init(n), es, size, Calls) ensures !Final(Init(n), es, size, Calls).panicked {
        InitCounts(n);
        NoPanicWithRoom(Init(n), es, size, Calls);
      }
    }
  }

  lemma {:induction false} CallsRunIsBlocksRun(s: State, es: seq<Event>, size: nat, k: nat)
    requires Runs(s, es, size, Calls) && k >= MAXOPBLOCKS
    ensures Runs(s, es, size, Blocks(k)) && Final(s, es, size, Blocks(k)) == Final(s, es, size, Calls)
    decreases |es|
  {
    if es != [] {
      CallsRunIsBlocksRun(Next(s, es[0], size, Calls), es[1..], size, k);
    }
  }

  /** Process p calls log_write for a block that it has logged before, and panics. */
  ghost predicate AbsorbedWritePanics(s: State, p: nat, b: nat, size: nat, budget: Budget) {
    && Enabled(s, Check(p, b), budget) && Next(s, Check(p, b), size, budget).panicked
    && b in s.ops[p].mine && b in s.logged
  }

  lemma FullLogPanics(s: State, m: nat, size: nat, k: nat)
    requires Shared(s, m) && m == LOGSIZE && k >= MAXOPBLOCKS
    ensures AbsorbedWritePanics(s, Turn(m - 1), m - 1, size, Blocks(k))
  {
    Grown(s.ops[Turn(m - 1)].mine, m - 1);
  }

  ghost predicate SomeAbsorbedWritePanics(size: nat, budget: Budget) {
    exists n: nat, es, p: nat, b: nat ::
      Runs(Init(n), es, size, budget) && AbsorbedWritePanics(Final(Init(n), es, size, budget), p, b, size, budget)
  }

  /** Reserving space per distinct block is not enough, however large the log: with MAXOPBLOCKS of them per
      operation the log can be exactly full, and log_write then panics for a block it would only absorb. */
  lemma AbsorbedWriteMayPanic(size: nat, k: nat)
    requires size > LOGSIZE && k >= MAXOPBLOCKS
    ensures SomeAbsorbedWritePanics(size, Blocks(k))
  {
    hide Runs, Final, Next, Enabled, Sharing, Turn, TurnEvents, Shared, AbsorbedWritePanics;
    var m: nat :| m == LOGSIZE;       // not the literal, which would make Sharing(m) unroll
    TurnsFill(m, size);
    CallsRunIsBlocksRun(Init(3), TurnEvents(m), size, k);
    FullLogPanics(Sharing(m), m, size, k);
    assert AbsorbedWritePanics(Final(Init(3), TurnEvents(m), size, Blocks(k)), Turn(m - 1), m - 1, size, Blocks(k));
  }

  lemma AbsorbedWriteIsPanic(size: nat, budget: Budget)
    requires SomeAbsorbedWritePanics(size, budget)
    ensures SomeRunPanics(size, budget)
  {
    var n: nat, es, p: nat, b: nat :|
      Runs(Init(n), es, size, budget) && AbsorbedWritePanics(Final(Init(n), es, size, budget), p, b, size, budget);
    RunsThen(Init(n), es, Check(p, b), size, budget);
    assert Runs(Init(n), es + [Check(p, b)], size, budget);
  }

  /** In a log with room for LOGSIZE blocks, operations that log up to k distinct blocks each, with any
      number of calls, can panic exactly when k >= MAXOPBLOCKS. */
  lemma BlocksPanicIff(size: nat, k: nat)
    requires size > LOGSIZE
    ensures SomeRunPanics(size, Blocks(k)) <==> k >= MAXOPBLOCKS
  {
    if k >= MAXOPBLOCKS {
      hide *;
      AbsorbedWriteMayPanic(size, k);
      AbsorbedWriteIsPanic(size, Blocks(k));
    } else {
      forall n: nat, es | Runs(Init(n), es, size, Blocks(k)) ensures !Final(Init(n), es, size, Blocks(k)).panicked {
        InitCounts(n);
        NoPanicWithRoom(Init(n), es, size, Blocks(k));
      }
    }
  }

  ghost predicate SomeRunOverruns(size: nat) {
    exists n: nat, es :: Runs(Init(n), es, size, Calls) && |Final(Init(n), es, size, Calls).logged| > size - 1
  }

  /** Because the size test is made outside the lock, a log area of at most LOGSIZE blocks can be
      overrun: two operations pass the test and both add a block. */
  lemma OverrunIff(size: nat)
    requires size >= 1
    ensures SomeRunOverruns(size) <==> 2 <= size <= LOGSIZE
  {
    if size > LOGSIZE {
      forall n: nat, es | Runs(Init(n), es, size, Calls) ensures |Final(Init(n), es, size, Calls).logged| <= size - 1 {
        CommitExcludesOps(n, es, size, Calls);
      }
    } else if size == 1 {
      forall n: nat, es | Runs(Init(n), es, size, Calls) ensures |Final(Init(n), es, size, Calls).logged| <= size - 1 {
        EmptyLogStaysEmpty(Init(n), es);
      }
    } else {
      TurnsFill(size - 2, size);
      TwoPassTheTest(size);
    }
  }

  lemma TwoPassTheTest(size: nat)
    requires 2 <= size <= LOGSIZE
    requires Runs(Init(3), TurnEvents(size - 2), size, Calls)
    requires Final(Init(3), TurnEvents(size - 2), size, Calls) == Sharing(size - 2)
    ensures SomeRunOverruns(size)
  {
    hide Runs, Final, Next, Enabled, Sharing, Share, Turn, TurnEvents;
    var k := size - 2;
    var es, p, q := TurnEvents(k), Turn(k), Turn(k + 1);
    TurnsAreFair(k);
    var p1, q1 := Check(p, k), Check(q, k + 1);
    BothAdd(Sharing(k), p, q, k, size);
    RunsThen(Init(3), es, p1, size, Calls);
    RunsThen(Init(3), es + [p1], q1, size, Calls);
    RunsThen(Init(3), es + [p1] + [q1], Add(p), size, Calls);
    RunsThen(Init(3), es + [p1] + [q1] + [Add(p)], Add(q), size, Calls);
  }

  lemma BothAdd(s: State, p: nat, q: nat, k: nat, size: nat)
    requires !s.panicked && p < |s.ops| && q < |s.ops| && p != q && s.ops[p].Open? && s.ops[q].Open?
    requires |s.ops[p].mine| <= s.ops[p].calls < MAXOPBLOCKS && |s.ops[q].mine| <= s.ops[q].calls < MAXOPBLOCKS
    requires |s.logged| == k < LOGSIZE && k < size - 1 && s.outstanding >= 1 && k !in s.logged && k + 1 !in s.logged
    ensures var p1, q1 := Check(p, k), Check(q, k + 1);
            && Enabled(s, p1, Calls) && Enabled(Next(s, p1, size, Calls), q1, Calls)
            && var s2 := Next(Next(s, p1, size, Calls), q1, size, Calls);
            && Enabled(s2, Add(p), Calls) && Enabled(Next(s2, Add(p), size, Calls), Add(q), Calls)
            && |Next(Next(s2, Add(p), size, Calls), Add(q), size, Calls).logged| == k + 2
  {
    Grown(s.ops[p].mine, k);
    Grown(s.ops[q].mine, k + 1);
    Grown(s.logged, k);
    Grown(s.logged + {k}, k + 1);
  }

  lemma {:induction false} EmptyLogStaysEmpty(s: State, es: seq<Event>)
    requires Runs(s, es, 1, Calls) && s.logged == {} && forall p :: 0 <= p < |s.ops| ==> !s.ops[p].Checked?
    ensures Final(s, es, 1, Calls).logged == {}
    decreases |es|
  {
    if es != [] {
      EmptyLogStaysEmpty(Next(s, es[0], 1, Calls), es[1..]);
    }
  }
}
