/** The stride scheduler: one round of its loop, and what that means for runs of rounds. */
module Stride {
  import opened Processes
  import opened Wrappers

  const MAX_PASS: int := 4_000_000
  const TOTAL_MAX_TICKETS: int := 100_000
  const DEFAULT_TICKETS: int := 1

  datatype Proc = Proc(state: ProcState, tickets: int, stride: int, pass: int, count: int)

  /** TOTAL_MAX_TICKETS / tickets, truncated toward zero. */
  function Share(tickets: int): int
    requires tickets != 0
  {
    if tickets > 0 then TOTAL_MAX_TICKETS / tickets else -(TOTAL_MAX_TICKETS / -tickets)
  }

  function Refreshed(p: Proc): Proc {
    if p.tickets != 0 then p.(stride := Share(p.tickets)) else p
  }

  /** fork's treatment of one process table entry. */
  function Normal(p: Proc): Proc {
    if p.state == Runnable || p.state == Running then
      if p.tickets != 0 then p.(stride := Share(p.tickets), pass := Share(p.tickets), count := 0) else p
    else p.(count := 0, tickets := DEFAULT_TICKETS, stride := 0)
  }

  /** k is the first of the runnable processes with the smallest pass, and that is below MAX_PASS. */
  ghost predicate IsMin(ps: seq<Proc>, k: nat) {
    && k < |ps| && ps[k].state == Runnable && ps[k].pass < MAX_PASS
    && forall j :: 0 <= j < |ps| && ps[j].state == Runnable ==>
      ps[k].pass <= ps[j].pass && (j < k ==> ps[k].pass < ps[j].pass)
  }

  /** No runnable process has a pass below MAX_PASS. */
  ghost predicate Overrun(ps: seq<Proc>) {
    forall j :: 0 <= j < |ps| && ps[j].state == Runnable ==> ps[j].pass >= MAX_PASS
  }

  /** ps' is ps except that the strides of some processes have been computed anew. */
  ghost predicate OnlyStrides(ps: seq<Proc>, ps': seq<Proc>) {
    |ps'| == |ps| && forall j :: 0 <= j < |ps| ==> ps'[j] == ps[j] || ps'[j] == Refreshed(ps[j])
  }

  /** A round that runs k, the one with the smallest pass. */
  ghost predicate Runs(ps: seq<Proc>, k: nat, ps': seq<Proc>) {
    && IsMin(ps, k) && |ps'| == |ps|
    && ps'[k] == Advanced(Refreshed(ps[k]))
    && forall j :: 0 <= j < |ps| && j != k ==> ps'[j] == ps[j] || ps'[j] == Refreshed(ps[j])
  }

  function Advanced(p: Proc): Proc {
    p.(pass := p.pass + p.stride, count := p.count + 1)
  }

  function Reset(ps: seq<Proc>): (r: seq<Proc>)
    ensures |r| == |ps| && forall j :: 0 <= j < |ps| ==> r[j] == ps[j].(pass := ps[j].stride)
  {
    seq(|ps|, j requires 0 <= j < |ps| => ps[j].(pass := ps[j].stride))
  }

  class Scheduler {
    var procs: seq<Proc>
    var min: Option<nat>             // kept from round to round

    constructor (ps: seq<Proc>)
      ensures procs == ps && min == None
    {
      procs, min := ps, None;
    }

    /** The loop at the end of fork. */
    method Normalise()
      modifies this`procs
      ensures |procs| == |old(procs)| && forall j :: 0 <= j < |procs| ==> procs[j] == Normal(old(procs)[j])
    {
      for i := 0 to |procs|
        invariant |procs| == |old(procs)|
        invariant forall j :: 0 <= j < |procs| ==> procs[j] == if j < i then Normal(old(procs)[j]) else old(procs)[j]
      {
        var p := procs[i];
        if p.state == Runnable || p.state == Running {
          if p.tickets != 0 {
            procs := procs[i := p.(stride := Share(p.tickets), pass := Share(p.tickets), count := 0)];
          }
        } else {
          procs := procs[i := p.(count := 0, tickets := DEFAULT_TICKETS, stride := 0)];
        }
      }
    }

    /** One round of the scheduler's loop, up to the switch to the process it returns. */
    method Round() returns (k: Option<nat>)
      requires min.Some? ==> min.value < |procs|
      modifies this
      ensures min.Some? ==> min.value < |procs|
      ensures k.Some? && !Overrun(old(procs)) ==> Runs(old(procs), k.value, procs) && min == k
      ensures k.Some? && Overrun(old(procs)) ==>
                && k == min == old(min) && k.value < |old(procs)| && old(procs)[k.value].state == Runnable
                && procs == Reset(old(procs))[k.value := Advanced(Reset(old(procs))[k.value])]
      ensures k.None? ==> procs == old(procs) && min == old(min) && Overrun(procs)
      ensures k.None? ==> (min.Some? ==> procs[min.value].state != Runnable)
    {
      var minpass := FindMin();
      if min.None? || procs[min.value].state != Runnable {
        return None;
      }
      if minpass >= MAX_PASS && minpass > 0 {
        ResetAll();
      }
      k := min;
      procs := procs[k.value := Advanced(procs[k.value])];
    }

    /** The scan for the smallest pass. */
    method FindMin() returns (minpass: int)
      requires min.Some? ==> min.value < |procs|
      modifies this
      ensures OnlyStrides(old(procs), procs) && (min.Some? ==> min.value < |procs|)
      ensures Overrun(old(procs)) ==> minpass == MAX_PASS && min == old(min) && procs == old(procs)
      ensures !Overrun(old(procs)) ==> min.Some? && IsMin(old(procs), min.value)
      ensures !Overrun(old(procs)) ==> procs[min.value] == Refreshed(old(procs)[min.value])
      ensures !Overrun(old(procs)) ==> minpass == old(procs)[min.value].pass
    {
      minpass := MAX_PASS;
      for i := 0 to |procs|
        invariant OnlyStrides(old(procs), procs) && minpass <= MAX_PASS && (min.Some? ==> min.value < |procs|)
        invariant forall j :: 0 <= j < i && old(procs)[j].state == Runnable ==> minpass <= old(procs)[j].pass
        invariant forall j :: i <= j < |procs| ==> procs[j] == old(procs)[j]
        invariant minpass == MAX_PASS ==> min == old(min) && procs == old(procs)
        invariant minpass < MAX_PASS ==> min.Some? && min.value < i && FirstLeast(old(procs), i, min.value)
        invariant minpass < MAX_PASS ==> minpass == old(procs)[min.value].pass
        invariant minpass < MAX_PASS ==> procs[min.value] == Refreshed(old(procs)[min.value])
      {
        var p := procs[i];
        if p.state == Runnable && p.pass < minpass {
          minpass := p.pass;
          if p.tickets != 0 {
            procs := procs[i := p.(stride := Share(p.tickets))];
          }
          min := Some(i);
        }
      }
    }

    method ResetAll()
      modifies this`procs
      ensures procs == Reset(old(procs))
    {
      for i := 0 to |procs|
        invariant |procs| == |old(procs)|
        invariant forall j :: 0 <= j < |procs| ==>
                    procs[j] == if j < i then old(procs)[j].(pass := old(procs)[j].stride) else old(procs)[j]
      {
        procs := procs[i := procs[i].(pass := procs[i].stride)];
      }
    }
  }

  /** IsMin among the first i processes. */
  ghost predicate FirstLeast(ps: seq<Proc>, i: nat, k: nat) {
    && k < i <= |ps| && ps[k].state == Runnable
    && forall j :: 0 <= j < i && ps[j].state == Runnable ==>
      ps[k].pass <= ps[j].pass && (j < k ==> ps[k].pass < ps[j].pass)
  }

  // ----- fairness

  ghost predicate TicketsOk(ps: seq<Proc>) {
    forall j :: 0 <= j < |ps| && ps[j].state == Runnable ==>
      1 <= ps[j].tickets <= TOTAL_MAX_TICKETS && ps[j].stride == Share(ps[j].tickets)
  }

  /** Pass counts the strides taken, and none is beyond MAX_PASS by more than the largest stride. */
  ghost predicate PassOk(ps: seq<Proc>) {
    forall j :: 0 <= j < |ps| && ps[j].state == Runnable ==>
      0 <= ps[j].count && ps[j].pass == (ps[j].count + 1) * ps[j].stride && ps[j].pass <= MAX_PASS + TOTAL_MAX_TICKETS
  }

  /** No runnable process is a whole stride ahead of another. */
  ghost predicate Balanced(ps: seq<Proc>) {
    forall i, j :: 0 <= i < |ps| && 0 <= j < |ps| && ps[i].state == Runnable && ps[j].state == Runnable ==>
      ps[i].pass - ps[i].stride <= ps[j].pass
  }

  ghost predicate Fair(ps: seq<Proc>) {
    TicketsOk(ps) && PassOk(ps) && Balanced(ps)
  }

  lemma ShareBounds(tickets: int)
    requires 1 <= tickets <= TOTAL_MAX_TICKETS
    ensures 1 <= Share(tickets) <= TOTAL_MAX_TICKETS
  {
  }

  /** The stride is what TOTAL_MAX_TICKETS holds of the tickets. */
  lemma ShareDivides(t: int)
    requires 1 <= t <= TOTAL_MAX_TICKETS
    ensures Share(t) * t <= TOTAL_MAX_TICKETS < (Share(t) + 1) * t
  {
  }

  /** Shares in strides are shares in tickets, up to the rounding of the stride. */
  lemma InTickets(ci: int, ti: int, c: int, tj: int, r: int)
    requires 1 <= ti <= TOTAL_MAX_TICKETS && 1 <= tj <= TOTAL_MAX_TICKETS && ci >= 0 && c >= 0 && r >= 0
    requires ci * Share(ti) <= c * Share(tj) + r * Share(ti)
    ensures ci * tj * (TOTAL_MAX_TICKETS - ti + 1) <= (c * ti + r * tj) * TOTAL_MAX_TICKETS
  {
    var si, sj := Share(ti), Share(tj);
    ShareDivides(ti);
    ShareDivides(tj);
    hide Share;
    var a, b := si * ti, sj * tj;
    assert TOTAL_MAX_TICKETS - ti + 1 <= a by {
      assert (si + 1) * ti == a + ti;
    }
    calc {
      ci * tj * (TOTAL_MAX_TICKETS - ti + 1);
    <= { Times(ci * tj, TOTAL_MAX_TICKETS - ti + 1, a); }
      ci * tj * a;
    == { Regroup(ci, tj, si, ti); }
      ci * si * (ti * tj);
    <= { Times(ti * tj, ci * si, c * sj + r * si); }
      (c * sj + r * si) * (ti * tj);
    == { Spread(c, sj, r, si, ti, tj); }
      c * ti * b + r * tj * a;
    <= { Times(c * ti, b, TOTAL_MAX_TICKETS); Times(r * tj, a, TOTAL_MAX_TICKETS); }
      c * ti * TOTAL_MAX_TICKETS + r * tj * TOTAL_MAX_TICKETS;
    == { Join(c * ti, r * tj, TOTAL_MAX_TICKETS); }
      (c * ti + r * tj) * TOTAL_MAX_TICKETS;
    }
  }

  lemma Times(x: int, a: int, b: int)
    requires x >= 0 && a <= b
    ensures x * a <= x * b && a * x <= b * x
  {
  }

  lemma Join(a: int, b: int, t: int)
    ensures (a + b) * t == a * t + b * t
  {
  }

  lemma Regroup(c: int, t: int, s: int, u: int)
    ensures c * t * (s * u) == c * s * (u * t)
  {
  }

  lemma Spread(c: int, sj: int, r: int, si: int, ti: int, tj: int)
    ensures (c * sj + r * si) * (ti * tj) == c * ti * (sj * tj) + r * tj * (si * ti)
  {
    Join(c * sj, r * si, ti * tj);
    Regroup(c, sj, ti, tj);
    Regroup(r, si, tj, ti);
  }

  lemma NormalIsFair(ps: seq<Proc>, ps': seq<Proc>)
    requires |ps'| == |ps| && forall j :: 0 <= j < |ps| ==> ps'[j] == Normal(ps[j])
    requires forall j :: 0 <= j < |ps| && ps[j].state == Runnable ==> 1 <= ps[j].tickets <= TOTAL_MAX_TICKETS
    ensures Fair(ps')
  {
    forall j | 0 <= j < |ps| && ps[j].state == Runnable ensures 1 <= Share(ps[j].tickets) <= TOTAL_MAX_TICKETS {
      ShareBounds(ps[j].tickets);
    }
  }

  lemma RoundKeepsFair(ps: seq<Proc>, k: nat, ps': seq<Proc>)
    requires Fair(ps) && Runs(ps, k, ps')
    ensures Fair(ps')
  {
    ShareBounds(ps[k].tickets);
    var p := ps[k];
    assert (p.count + 1) * p.stride + p.stride == (p.count + 1 + 1) * p.stride;
    assert forall j :: 0 <= j < |ps| && j != k && ps[j].state == Runnable ==> ps'[j] == ps[j];
  }

  /** Strides times counts stay within one stride of each other. */
  lemma FairShares(ps: seq<Proc>, i: nat, j: nat)
    requires Fair(ps) && i < |ps| && j < |ps| && ps[i].state == Runnable && ps[j].state == Runnable
    ensures ps[i].count * ps[i].stride <= (ps[j].count + 1) * ps[j].stride
  {
    assert (ps[i].count + 1) * ps[i].stride - ps[i].stride == ps[i].count * ps[i].stride;
  }

  /** The tables of a run in which every round n runs picks[n], the process with the smallest pass. */
  ghost predicate IsRun(run: seq<seq<Proc>>, picks: seq<nat>) {
    |run| == |picks| + 1 && forall n :: 0 <= n < |picks| ==> Runs(run[n], picks[n], run[n + 1])
  }

  /** From a fair table on, every table of every run without a reset is fair. */
  lemma {:induction false} RunsAreFair(run: seq<seq<Proc>>, picks: seq<nat>, n: nat)
    requires IsRun(run, picks) && Fair(run[0]) && n < |run|
    ensures Fair(run[n])
  {
    if n > 0 {
      RunsAreFair(run, picks, n - 1);
      RoundKeepsFair(run[n - 1], picks[n - 1], run[n]);
    }
  }

  /** fork, then any run without a reset: every pair of runnable processes gets its share. */
  lemma StrideFairness(ps: seq<Proc>, run: seq<seq<Proc>>, picks: seq<nat>, n: nat, i: nat, j: nat)
    requires IsRun(run, picks) && |run[0]| == |ps| && (forall x :: 0 <= x < |ps| ==> run[0][x] == Normal(ps[x]))
    requires forall x :: 0 <= x < |ps| && ps[x].state == Runnable ==> 1 <= ps[x].tickets <= TOTAL_MAX_TICKETS
    requires n < |run| && i < |run[n]| && j < |run[n]| && run[n][i].state == Runnable && run[n][j].state == Runnable
    ensures run[n][i].pass - run[n][i].stride <= run[n][j].pass <= MAX_PASS + TOTAL_MAX_TICKETS
    ensures run[n][i].count * run[n][i].stride <= (run[n][j].count + 1) * run[n][j].stride
    ensures var (p, q) := (run[n][i], run[n][j]);
            p.count * q.tickets * (TOTAL_MAX_TICKETS - p.tickets + 1) <= (q.count + 1) * p.tickets * TOTAL_MAX_TICKETS
  {
    NormalIsFair(ps, run[0]);
    RunsAreFair(run, picks, n);
    FairShares(run[n], i, j);
    var (p, q) := (run[n][i], run[n][j]);
    hide Share;
    InTickets(p.count, p.tickets, q.count + 1, q.tickets, 0);
  }

  /** fork resets whoever is neither runnable nor running: a process that sleeps through a fork has one ticket when
      it runs again, whatever it had before. */
  lemma SleptThroughFork(p: Proc)
    requires p.state != Runnable && p.state != Running
    ensures var q := Refreshed(Normal(p).(state := Runnable)); q.tickets == 1 && q.stride == TOTAL_MAX_TICKETS
    ensures Normal(p).count == 0 && Normal(p).pass == p.pass && Normal(p).state == p.state
  {
  }

  /** Who is runnable or running, as the caller of fork is, keeps its tickets and starts anew with its share. */
  lemma ForkKeepsTickets(p: Proc)
    requires p.state in {Runnable, Running} && 1 <= p.tickets <= TOTAL_MAX_TICKETS
    ensures var q := Normal(p);
            && q.state == p.state && q.tickets == p.tickets && q.count == 0 && q.pass == q.stride
            && q.stride * q.tickets <= TOTAL_MAX_TICKETS < (q.stride + 1) * q.tickets
  {
    ShareDivides(p.tickets);
  }

  /** A reset sets every pass to the stride and then advances the process remembered as min, whatever
      its pass was: the table is balanced afterwards exactly when no runnable stride is smaller. */
  lemma ResetBalancedIff(ps: seq<Proc>, k: nat)
    requires TicketsOk(ps) && k < |ps| && ps[k].state == Runnable
    ensures Balanced(Reset(ps)[k := Advanced(Reset(ps)[k])]) <==>
            forall j :: 0 <= j < |ps| && ps[j].state == Runnable ==> ps[k].stride <= ps[j].stride
  {
    var ps' := Reset(ps)[k := Advanced(Reset(ps)[k])];
    forall j | 0 <= j < |ps| && ps[j].state == Runnable ensures 1 <= ps[j].stride {
      ShareBounds(ps[j].tickets);
    }
    if Balanced(ps') {
      forall j | 0 <= j < |ps| && ps[j].state == Runnable && j != k ensures ps[k].stride <= ps[j].stride {
        assert ps'[k].pass - ps'[k].stride <= ps'[j].pass;
      }
    }
  }

  // ----- shares across resets

  /** A round that resets, or one that runs the process with the smallest pass. */
  ghost predicate Round(ps: seq<Proc>, k: nat, reset: bool, ps': seq<Proc>) {
    if reset then k < |ps| && ps[k].state == Runnable && ps' == Reset(ps)[k := Advanced(Reset(ps)[k])]
    else Runs(ps, k, ps')
  }

  /** Pass counts the strides taken since the last reset, when the counts were `base`. */
  ghost predicate CountedFrom(ps: seq<Proc>, base: seq<int>) {
    |base| == |ps| && forall i :: 0 <= i < |ps| && ps[i].state == Runnable ==> SinceOk(ps[i], base[i])
  }

  predicate SinceOk(p: Proc, base: int) {
    0 <= base <= p.count && p.pass == (p.count - base + 1) * p.stride
  }

  /** No runnable process is more than a stride ahead of another, or two after a reset. */
  ghost predicate Close(ps: seq<Proc>, resets: nat) {
    forall i, j :: 0 <= i < |ps| && 0 <= j < |ps| && ps[i].state == Runnable && ps[j].state == Runnable ==>
      ps[i].pass - ps[i].stride <= ps[j].pass + if resets > 0 then ps[i].stride else 0
  }

  /** What process i had been given at the last of the resets, compared with j. */
  predicate ShareOk(counti: int, stridei: int, countj: int, stridej: int, late: nat, resets: nat) {
    counti * stridei <= (countj + late) * stridej + resets * stridei
  }

  ghost predicate SharesOk(ps: seq<Proc>, base: seq<int>, resets: nat)
    requires |base| == |ps|
  {
    forall i, j :: 0 <= i < |ps| && 0 <= j < |ps| && ps[i].state == Runnable && ps[j].state == Runnable ==>
      ShareOk(base[i], ps[i].stride, base[j], ps[j].stride, resets, if resets > 0 then resets - 1 else 0)
  }

  ghost predicate FairSince(ps: seq<Proc>, base: seq<int>, resets: nat) {
    TicketsOk(ps) && CountedFrom(ps, base) && Close(ps, resets) && SharesOk(ps, base, resets)
  }

  /** So far each of two processes has had its share, up to a stride of each per reset. */
  lemma SharesSoFar(ps: seq<Proc>, base: seq<int>, resets: nat, i: nat, j: nat)
    requires FairSince(ps, base, resets) && i < |ps| && j < |ps| && ps[i].state == Runnable && ps[j].state == Runnable
    ensures ShareOk(ps[i].count, ps[i].stride, ps[j].count, ps[j].stride, resets + 1, resets)
  {
    assert SinceOk(ps[i], base[i]) && SinceOk(ps[j], base[j]);
    assert ShareOk(base[i], ps[i].stride, base[j], ps[j].stride, resets, if resets > 0 then resets - 1 else 0);
    Added(ps[i].count, base[i], ps[i].stride, ps[j].count, base[j], ps[j].stride, resets);
  }

  lemma Added(ci: int, bi: int, si: int, cj: int, bj: int, sj: int, resets: nat)
    requires (ci - bi) * si <= (cj - bj + 1) * sj + if resets > 0 then si else 0
    requires ShareOk(bi, si, bj, sj, resets, if resets > 0 then resets - 1 else 0)
    ensures ShareOk(ci, si, cj, sj, resets + 1, resets)
  {
    assert ci * si == (ci - bi) * si + bi * si;
    assert (cj + (resets + 1)) * sj == (cj - bj + 1) * sj + (bj + resets) * sj;
    assert resets > 0 ==> resets * si == (resets - 1) * si + si;
  }

  /** The counts of all processes. */
  function Counts(ps: seq<Proc>): seq<int> {
    seq(|ps|, i requires 0 <= i < |ps| => ps[i].count)
  }

  lemma ResetKeepsFair(ps: seq<Proc>, base: seq<int>, resets: nat, k: nat, ps': seq<Proc>)
    requires FairSince(ps, base, resets) && Round(ps, k, true, ps')
    ensures FairSince(ps', Counts(ps), resets + 1)
  {
    var base' := Counts(ps);
    forall j | 0 <= j < |ps| && ps[j].state == Runnable ensures 1 <= ps[j].stride && SinceOk(ps[j], base[j]) {
      ShareBounds(ps[j].tickets);
    }
    forall j | 0 <= j < |ps| && ps'[j].state == Runnable ensures SinceOk(ps'[j], base'[j]) {
      assert ps'[j].pass == if j == k then 2 * ps[j].stride else ps[j].stride;
    }
    forall i, j | 0 <= i < |ps| && 0 <= j < |ps| && ps'[i].state == Runnable && ps'[j].state == Runnable
      ensures ShareOk(base'[i], ps'[i].stride, base'[j], ps'[j].stride, resets + 1, resets)
    {
      SharesSoFar(ps, base, resets, i, j);
    }
  }

  lemma RunKeepsFair(ps: seq<Proc>, base: seq<int>, resets: nat, k: nat, ps': seq<Proc>)
    requires FairSince(ps, base, resets) && Runs(ps, k, ps')
    ensures FairSince(ps', base, resets)
  {
    hide ShareOk;
    ShareBounds(ps[k].tickets);
    var p := ps[k];
    assert SinceOk(p, base[k]);
    assert (p.count - base[k] + 1) * p.stride + p.stride == (p.count + 1 - base[k] + 1) * p.stride;
    assert forall j :: 0 <= j < |ps| && j != k && ps[j].state == Runnable ==> ps'[j] == ps[j];
    assert ps'[k] == Advanced(ps[k]);
  }

  /** How many of the first n rounds reset. */
  function Resets(resets: seq<bool>, n: nat): nat
    requires n <= |resets|
  {
    if n == 0 then 0 else Resets(resets, n - 1) + if resets[n - 1] then 1 else 0
  }

  ghost predicate IsRunWithResets(run: seq<seq<Proc>>, picks: seq<nat>, resets: seq<bool>) {
    && |run| == |picks| + 1 == |resets| + 1
    && forall n :: 0 <= n < |picks| ==> Round(run[n], picks[n], resets[n], run[n + 1])
  }

  lemma {:induction false} RunsStayFair(run: seq<seq<Proc>>, picks: seq<nat>, resets: seq<bool>, n: nat)
    returns (base: seq<int>)
    requires IsRunWithResets(run, picks, resets) && Fair(run[0]) && n < |run|
    requires forall i :: 0 <= i < |run[0]| && run[0][i].state == Runnable ==> run[0][i].count >= 0
    ensures FairSince(run[n], base, Resets(resets, n))
  {
    hide ShareOk;
    if n == 0 {
      base := seq(|run[0]|, i => 0);
      StartFair(run[0], base);
    } else {
      base := RunsStayFair(run, picks, resets, n - 1);
      assert Round(run[n - 1], picks[n - 1], resets[n - 1], run[n - 1 + 1]);
      if resets[n - 1] {
        ResetKeepsFair(run[n - 1], base, Resets(resets, n - 1), picks[n - 1], run[n]);
        base := Counts(run[n - 1]);
      } else {
        RunKeepsFair(run[n - 1], base, Resets(resets, n - 1), picks[n - 1], run[n]);
      }
    }
  }

  lemma StartFair(ps: seq<Proc>, base: seq<int>)
    requires Fair(ps) && |base| == |ps| && forall i :: 0 <= i < |ps| ==> base[i] == 0
    requires forall i :: 0 <= i < |ps| && ps[i].state == Runnable ==> ps[i].count >= 0
    ensures FairSince(ps, base, 0)
  {
  }

  /** fork, then any rounds: with r of them resets, the strides taken by i are at most those taken by j, plus
      one stride of j and r of each. */
  lemma StrideShares(ps: seq<Proc>, run: seq<seq<Proc>>, picks: seq<nat>, resets: seq<bool>, n: nat, i: nat, j: nat)
    requires IsRunWithResets(run, picks, resets) && |run[0]| == |ps|
    requires forall x :: 0 <= x < |ps| ==> run[0][x] == Normal(ps[x])
    requires forall x :: 0 <= x < |ps| && ps[x].state == Runnable ==> 1 <= ps[x].tickets <= TOTAL_MAX_TICKETS
    requires n < |run| && i < |run[n]| && j < |run[n]| && run[n][i].state == Runnable && run[n][j].state == Runnable
    ensures var (p, q, r) := (run[n][i], run[n][j], Resets(resets, n));
            p.count * p.stride <= (q.count + r + 1) * q.stride + r * p.stride
    ensures var (p, q, r) := (run[n][i], run[n][j], Resets(resets, n));
            p.count * q.tickets * (TOTAL_MAX_TICKETS - p.tickets + 1)
            <= ((q.count + r + 1) * p.tickets + r * q.tickets) * TOTAL_MAX_TICKETS
  {
    hide FairSince, Fair, Share;
    NormalIsFair(ps, run[0]);
    var base := RunsStayFair(run, picks, resets, n);
    var (p, q, r) := (run[n][i], run[n][j], Resets(resets, n));
    SharesSoFar(run[n], base, r, i, j);
    HaveTickets(run[n], base, r, i);
    HaveTickets(run[n], base, r, j);
    InTickets(p.count, p.tickets, q.count + r + 1, q.tickets, r);
  }

  lemma HaveTickets(ps: seq<Proc>, base: seq<int>, resets: nat, i: nat)
    requires FairSince(ps, base, resets) && i < |ps| && ps[i].state == Runnable
    ensures 1 <= ps[i].tickets <= TOTAL_MAX_TICKETS && ps[i].stride == Share(ps[i].tickets) && ps[i].count >= 0
  {
    hide Share;
    assert SinceOk(ps[i], base[i]);
  }

  // ----- a run that ends in an unbalanced reset

  const A_STRIDE: int := 33_333
  const B_STRIDE: int := 25_000

  /** Two runnable processes with 3 and 4 tickets, a and b rounds after fork. */
  function ThreeAndFour(a: nat, b: nat): seq<Proc> {
    [Proc(Runnable, 3, A_STRIDE, (a + 1) * A_STRIDE, a), Proc(Runnable, 4, B_STRIDE, (b + 1) * B_STRIDE, b)]
  }

  /** Neither process has run at or beyond MAX_PASS, and the last to run was the one with the smaller pass. */
  ghost predicate Raced(a: nat, b: nat, min: Option<nat>) {
    && a * A_STRIDE < MAX_PASS && b * B_STRIDE < MAX_PASS
    && a * A_STRIDE <= (b + 1) * B_STRIDE && b * B_STRIDE <= (a + 1) * A_STRIDE
    && match min
       case None => a == b == 0
       case Some(k) => k < 2 && (k == 1 ==> b > 0 && a * A_STRIDE <= b * B_STRIDE)
  }

  /** A round of the race runs one of the two. */
  lemma RaceStep(a: nat, b: nat, min: Option<nat>, k: nat, ps: seq<Proc>)
    requires Raced(a, b, min) && Runs(ThreeAndFour(a, b), k, ps)
    ensures k < 2
    ensures k == 0 ==> ps == ThreeAndFour(a + 1, b) && Raced(a + 1, b, Some(0))
    ensures k == 1 ==> ps == ThreeAndFour(a, b + 1) && Raced(a, b + 1, Some(1))
  {
    assert Share(3) == A_STRIDE && Share(4) == B_STRIDE;
    var before := ThreeAndFour(a, b);
    assert IsMin(before, k) && before[0].state == Runnable && before[1].state == Runnable;
    if k == 0 {
      assert ps[0] == Advanced(before[0]) && ps[1] == before[1];
    } else {
      assert ps[1] == Advanced(before[1]) && ps[0] == before[0];
    }
  }

  /** From fork to the first reset, by rounds of the scheduler: the reset runs the process with 3 tickets,
      which is then a whole stride ahead of the one with 4. */
  method ThreeAndFourTickets() returns (s: Scheduler)
    ensures |s.procs| == 2 && s.procs[0].state == s.procs[1].state == Runnable
    ensures TicketsOk(s.procs) && !Balanced(s.procs)
  {
    s := new Scheduler([Proc(Runnable, 3, 0, 0, 0), Proc(Runnable, 4, 0, 0, 0)]);
    s.Normalise();
    var a, b := 0, 0;
    assert s.procs == ThreeAndFour(a, b);
    while s.procs[0].pass < MAX_PASS || s.procs[1].pass < MAX_PASS
      invariant s.procs == ThreeAndFour(a, b) && Raced(a, b, s.min)
      decreases 2 * MAX_PASS - a * A_STRIDE - b * B_STRIDE
    {
      ghost var min := s.min;
      var k := s.Round();
      RaceStep(a, b, min, k.value, s.procs);
      if k == Some(0) {
        a := a + 1;
      } else {
        b := b + 1;
      }
    }
    assert a == 120 && b == 159 && s.min == Some(0);
    ghost var ps := s.procs;
    var k := s.Round();
    assert k == Some(0) && s.procs == Reset(ps)[0 := Advanced(Reset(ps)[0])];
    assert s.procs[0].pass - s.procs[0].stride > s.procs[1].pass;
  }
}
