/** sleep and wakeup for any number of processes, channels and conditions, at the granularity of the two
    spin locks: lk, which guards the conditions, and pt, which is ptable.lock. */
module Wakeup {
  import opened Exclusion

  /** Which lock the callers of sleep pass as lk, and whether wakers hold it. */
  datatype Mode =
    | OwnLock                // a lock of its own, held by whoever calls wakeup
    | TableLock              // ptable.lock itself, as in wait and exit
    | NoLock                 // a lock of its own, but wakeup is also called without it

  /** Where a process is. */
  datatype Pc =
    | Outside                // holds neither lock
    | Wanting                // about to acquire lk, for the first time or again after sleep
    | Locked                 // holds lk: may change what others test, test, call wakeup, or release lk
    | Retiring               // holds lk, its test failed, about to acquire pt in sleep
    | Handover               // holds lk and pt, about to release lk
    | Dozing                 // holds pt, about to mark itself SLEEPING and switch away
    | Asleep                 // SLEEPING on its channel; pt released
    | Waking                 // holds lk, about to acquire pt in wakeup
    | Woke                   // holds lk and pt, has run wakeup1
    | Meddling               // has changed a condition without lk, about to acquire pt in wakeup
    | Meddled                // holds pt and not lk, has run wakeup1

  /** Which processes would find their condition true, the channels of conditions made true whose wakeup
      is still to come, and per process its place, its channel, and whether a wakeup of that channel has
      happened since its last test. */
  datatype State = State(ready: set<nat>, owed: set<nat>, pcs: seq<Pc>, chan: seq<nat>, missed: seq<bool>)

  function LK(m: Mode): set<Pc> {
    if m == TableLock then {Locked, Dozing} else {Locked, Retiring, Handover, Waking, Woke}
  }

  function PT(m: Mode): set<Pc> {
    if m == TableLock then {Locked, Dozing} else {Handover, Dozing, Woke, Meddled}
  }

  /** From the failed test to the next wakeup. */
  const SLEEPY: set<Pc> := {Retiring, Handover, Dozing, Asleep}

  ghost predicate Shaped(s: State) {
    |s.chan| == |s.pcs| == |s.missed|
  }

  function Moved(s: State, i: nat, pc: Pc): State
    requires i < |s.pcs|
  {
    s.(pcs := s.pcs[i := pc])
  }

  /** wakeup1: those asleep on the channel will take lk and test again. */
  ghost function Woken(s: State, c: nat): (r: State)
    requires Shaped(s)
    ensures Shaped(r) && |r.pcs| == |s.pcs|
  {
    s.(owed := s.owed - {c},
       pcs := seq(|s.pcs|, k requires 0 <= k < |s.pcs| =>
         if s.pcs[k] == Asleep && s.chan[k] == c then Wanting else s.pcs[k]),
       missed := seq(|s.pcs|, k requires 0 <= k < |s.pcs| => s.missed[k] || s.chan[k] == c))
  }

  /** Some conditions change. Whoever makes a sleeper's condition true owes a wakeup of its channel. */
  ghost predicate Changes(s: State, t: State)
    requires Shaped(s)
  {
    && s.owed <= t.owed
    && t == s.(ready := t.ready, owed := t.owed)
    && forall k :: 0 <= k < |s.pcs| && k in t.ready && k !in s.ready && s.pcs[k] in {Dozing, Asleep} ==>
      s.chan[k] in t.owed
  }

  /** The test has failed, and nobody is owed a wakeup: sleep(c, lk) is called. */
  ghost predicate Retires(s: State, i: nat, c: nat, t: State, m: Mode)
    requires Shaped(s) && i < |s.pcs|
  {
    && i !in s.ready && s.owed == {}
    && var place := if m == TableLock then Dozing else Retiring;
    t == Moved(s, i, place).(chan := s.chan[i := c], missed := s.missed[i := false])
  }

  /** What the holder of lk may do. */
  ghost predicate LockedStep(s: State, i: nat, c: nat, t: State, m: Mode)
    requires Shaped(s) && i < |s.pcs|
  {
    || Changes(s, t)
    || Retires(s, i, c, t, m)
    || (s.owed == {} && t == Moved(s, i, Outside))
    || (m == TableLock && t == Woken(s, c))
    || (m != TableLock && t == Moved(s, i, Waking).(chan := s.chan[i := c]))
  }

  /** One step of process i; c is the channel of the call of sleep or wakeup it makes, if it makes one. */
  ghost predicate Step(s: State, i: nat, c: nat, t: State, m: Mode) {
    && Shaped(s) && i < |s.pcs|
    && match s.pcs[i]
       case Outside =>
         || t == Moved(s, i, Wanting)
         || (m == NoLock && t == Moved(s, i, Meddling).(ready := t.ready, chan := s.chan[i := c]))
       case Wanting => Free(s.pcs, LK(m)) && t == Moved(s, i, Locked)
       case Locked => LockedStep(s, i, c, t, m)
       case Retiring => Free(s.pcs, PT(m)) && t == Moved(s, i, Handover)
       case Handover => t == Moved(s, i, Dozing)
       case Dozing => t == Moved(s, i, Asleep)
       case Asleep => t == Moved(s, i, Wanting)              // killed
       case Waking => Free(s.pcs, PT(m)) && t == Moved(Woken(s, s.chan[i]), i, Woke)
       case Woke => t == Moved(s, i, Locked)
       case Meddling => Free(s.pcs, PT(m)) && t == Moved(Woken(s, s.chan[i]), i, Meddled)
       case Meddled => t == Moved(s, i, Outside)
  }

  ghost predicate Initial(s: State) {
    Shaped(s) && s.owed == {} && forall k :: 0 <= k < |s.pcs| ==> s.pcs[k] == Outside
  }

  // ----- what every step keeps

  /** The places nobody comes to. */
  function Absent(m: Mode): set<Pc> {
    match m
    case OwnLock => {Meddling, Meddled}
    case TableLock => {Retiring, Handover, Waking, Woke, Meddling, Meddled}
    case NoLock => {}
  }

  /** At most one process has each lock. */
  ghost predicate Exclusive(s: State, m: Mode) {
    AtMostOne(s.pcs, LK(m)) && AtMostOne(s.pcs, PT(m)) && Free(s.pcs, Absent(m))
  }

  /** Whoever owes a wakeup still holds lk. */
  ghost predicate DebtHeld(s: State) {
    s.owed != {} ==> !Free(s.pcs, {Locked, Waking, Woke})
  }

  /** A process on its way to sleep has missed no wakeup, and its condition is false or it will be woken. */
  ghost predicate Heard(s: State, k: nat)
    requires Shaped(s) && k < |s.pcs|
  {
    s.pcs[k] in SLEEPY ==> !s.missed[k] && (k in s.ready ==> s.pcs[k] in {Dozing, Asleep} && s.chan[k] in s.owed)
  }

  ghost predicate AllHeard(s: State) {
    Shaped(s) && forall k :: 0 <= k < |s.pcs| ==> Heard(s, k)
  }

  ghost predicate Inv(s: State, m: Mode) {
    Shaped(s) && Exclusive(s, m) && DebtHeld(s) && (m != NoLock ==> AllHeard(s))
  }

  /** Whether process i may go from one place to another: it enters the places of a lock only from another
      of them or when the lock is free. */
  ghost predicate Admitted(s: State, i: nat, t: State, m: Mode)
    requires i < |s.pcs|
  {
    && Shaped(t) && |t.pcs| == |s.pcs| && t.pcs[i] !in Absent(m)
    && (t.pcs[i] in LK(m) ==> s.pcs[i] in LK(m) || Free(s.pcs, LK(m)))
    && (t.pcs[i] in PT(m) ==> s.pcs[i] in PT(m) || Free(s.pcs, PT(m)))
    && forall k :: 0 <= k < |s.pcs| && k != i ==> t.pcs[k] == s.pcs[k] || (s.pcs[k] == Asleep && t.pcs[k] == Wanting)
  }

  lemma LockedStepMoves(s: State, i: nat, c: nat, t: State, m: Mode)
    requires Shaped(s) && i < |s.pcs| && s.pcs[i] == Locked && LockedStep(s, i, c, t, m)
    ensures Admitted(s, i, t, m)
  {
    hide Free;
  }

  lemma StepMoves(s: State, i: nat, c: nat, t: State, m: Mode)
    requires Step(s, i, c, t, m) && s.pcs[i] !in Absent(m)
    ensures Admitted(s, i, t, m)
  {
    hide Free, LockedStep;
    if s.pcs[i] == Locked {
      LockedStepMoves(s, i, c, t, m);
    }
  }

  lemma StepKeepsExclusive(s: State, i: nat, c: nat, t: State, m: Mode)
    requires Shaped(s) && Exclusive(s, m) && Step(s, i, c, t, m)
    ensures Shaped(t) && Exclusive(t, m)
  {
    assert s.pcs[i] !in Absent(m);
    StepMoves(s, i, c, t, m);
    hide Step, AtMostOne;
    ChangeKeepsOne(s.pcs, t.pcs, i, LK(m));
    ChangeKeepsOne(s.pcs, t.pcs, i, PT(m));
  }

  lemma StepKeepsDebt(s: State, i: nat, c: nat, t: State, m: Mode)
    requires Shaped(s) && Exclusive(s, m) && DebtHeld(s) && Step(s, i, c, t, m)
    ensures DebtHeld(t)
  {
    StepMoves(s, i, c, t, m);
  }

  /** What the mover itself knows. */
  lemma Listening(s: State, m: Mode, k: nat)
    requires Inv(s, m) && m != NoLock && k < |s.pcs|
    ensures Shaped(s) && Heard(s, k) && s.pcs[k] !in Absent(m)
  {
    hide AtMostOne, DebtHeld;
  }

  lemma MoverHeard(s: State, i: nat, c: nat, t: State, m: Mode)
    requires Inv(s, m) && Step(s, i, c, t, m) && m != NoLock && Shaped(t) && |t.pcs| == |s.pcs|
    ensures Heard(t, i)
  {
    hide Inv, Free;
    Listening(s, m, i);
  }

  /** Others who are on their way to sleep, or asleep on another channel, do not notice. */
  lemma OtherHeard(s: State, i: nat, c: nat, t: State, m: Mode, k: nat)
    requires Inv(s, m) && Step(s, i, c, t, m) && m != NoLock && Shaped(t) && |t.pcs| == |s.pcs|
    requires k < |s.pcs| && k != i
    ensures Heard(t, k)
  {
    hide Inv, AtMostOne;
    Listening(s, m, i);
    Listening(s, m, k);
    OneHolder(s, m, i, k);
  }

  /** Two processes do not hold the same lock. */
  lemma OneHolder(s: State, m: Mode, i: nat, k: nat)
    requires Inv(s, m) && i < |s.pcs| && k < |s.pcs| && k != i
    ensures s.pcs[i] in LK(m) ==> s.pcs[k] !in LK(m)
    ensures s.pcs[i] in PT(m) ==> s.pcs[k] !in PT(m)
  {
    if s.pcs[i] in LK(m) {
      OnlyOne(s.pcs, i, LK(m));
    }
    if s.pcs[i] in PT(m) {
      OnlyOne(s.pcs, i, PT(m));
    }
  }

  lemma StepKeeps(s: State, i: nat, c: nat, t: State, m: Mode)
    requires Inv(s, m) && Step(s, i, c, t, m)
    ensures Inv(t, m)
  {
    assert s.pcs[i] !in Absent(m);
    StepMoves(s, i, c, t, m);
    StepKeepsExclusive(s, i, c, t, m);
    StepKeepsDebt(s, i, c, t, m);
    hide Heard, Step, Exclusive, DebtHeld;
    if m != NoLock {
      MoverHeard(s, i, c, t, m);
      forall k | 0 <= k < |t.pcs| && k != i ensures Heard(t, k) {
        OtherHeard(s, i, c, t, m, k);
      }
    }
  }

  /** Which process moves, and the channel of the call it makes. */
  datatype Move = Move(who: nat, chan: nat)

  ghost predicate IsRun(run: seq<State>, moves: seq<Move>, m: Mode) {
    && |run| == |moves| + 1 && Initial(run[0])
    && forall n :: 0 <= n < |moves| ==> Step(run[n], moves[n].who, moves[n].chan, run[n + 1], m)
  }

  lemma InitialKeeps(s: State, m: Mode)
    requires Initial(s)
    ensures Inv(s, m)
  {
  }

  lemma {:induction false} RunKeeps(run: seq<State>, moves: seq<Move>, m: Mode, n: nat)
    requires IsRun(run, moves, m) && n < |run|
    ensures Inv(run[n], m)
  {
    if n == 0 {
      InitialKeeps(run[0], m);
    } else {
      RunKeeps(run, moves, m, n - 1);
      StepKeeps(run[n - 1], moves[n - 1].who, moves[n - 1].chan, run[n], m);
    }
  }

  /** In every run in which wakers hold lk, from its failed test until it is woken a process misses no
      wakeup of its channel, and whenever lk is free the condition of every sleeper is false. */
  lemma NoLostWakeup(run: seq<State>, moves: seq<Move>, m: Mode, n: nat, k: nat)
    requires IsRun(run, moves, m) && n < |run| && m != NoLock && k < |run[n].pcs|
    ensures Shaped(run[n]) && (run[n].pcs[k] in SLEEPY ==> !run[n].missed[k])
    ensures run[n].pcs[k] in SLEEPY && Free(run[n].pcs, LK(m)) ==> k !in run[n].ready
  {
    RunKeeps(run, moves, m, n);
    assert Heard(run[n], k);
    assert forall j :: 0 <= j < |run[n].pcs| ==> run[n].pcs[j] !in Absent(m);
  }

  // ----- wakers without lk

  /** A process that sleeps although its condition is true, with everybody else gone. */
  ghost predicate Stranded(s: State, k: nat) {
    && k < |s.pcs| && s.pcs[k] == Asleep && k in s.ready
    && forall j :: 0 <= j < |s.pcs| && j != k ==> s.pcs[j] == Outside
  }

  ghost predicate SomeRunStrands(m: Mode, n: nat) {
    exists run: seq<State>, moves: seq<Move>, k: nat ::
      IsRun(run, moves, m) && |run[0].pcs| == n && Stranded(run[|moves|], k)
  }

  /** A process alone misses nothing, for want of a waker. */
  lemma {:induction false} AloneHears(run: seq<State>, moves: seq<Move>, m: Mode, n: nat)
    requires IsRun(run, moves, m) && n < |run| && |run[0].pcs| <= 1
    ensures |run[n].pcs| == |run[0].pcs| && (|run[n].pcs| == 1 && run[n].pcs[0] in SLEEPY ==> 0 !in run[n].ready)
  {
    if n == 0 {
    } else {
      AloneHears(run, moves, m, n - 1);
      assert Step(run[n - 1], moves[n - 1].who, moves[n - 1].chan, run[n], m);
    }
  }

  lemma Extend(run: seq<State>, moves: seq<Move>, m: Mode, i: nat, t: State)
    returns (run': seq<State>, moves': seq<Move>)
    requires IsRun(run, moves, m) && Step(run[|moves|], i, 0, t, m)
    ensures IsRun(run', moves', m) && run'[0] == run[0] && run'[|moves'|] == t
  {
    run', moves' := run + [t], moves + [Move(i, 0)];
  }

  /** n processes on channel 0, all outside except the first two. */
  ghost function Two(n: nat, ready: set<nat>, zero: Pc, one: Pc, missed: bool): State {
    var pcs := seq(n, k => if k == 0 then zero else if k == 1 then one else Outside);
    State(ready, {}, pcs, seq(n, k => 0), seq(n, k => missed))
  }

  lemma TestFails(n: nat) returns (run: seq<State>, moves: seq<Move>)
    requires n >= 2
    ensures IsRun(run, moves, NoLock) && |run[0].pcs| == n && run[|moves|] == Two(n, {}, Retiring, Outside, false)
  {
    run, moves := [Two(n, {}, Outside, Outside, false)], [];
    run, moves := Extend(run, moves, NoLock, 0, Two(n, {}, Wanting, Outside, false));
    run, moves := Extend(run, moves, NoLock, 0, Two(n, {}, Locked, Outside, false));
    run, moves := Extend(run, moves, NoLock, 0, Two(n, {}, Retiring, Outside, false));
  }

  /** Process 1 makes the condition of process 0 true and calls wakeup, while 0 is about to sleep. */
  lemma WakeupTooEarly(n: nat) returns (run: seq<State>, moves: seq<Move>)
    requires n >= 2
    ensures IsRun(run, moves, NoLock) && |run[0].pcs| == n && run[|moves|] == Two(n, {0}, Retiring, Outside, true)
  {
    run, moves := TestFails(n);
    run, moves := Extend(run, moves, NoLock, 1, Two(n, {0}, Retiring, Meddling, false));
    run, moves := Extend(run, moves, NoLock, 1, Two(n, {0}, Retiring, Meddled, true));
    run, moves := Extend(run, moves, NoLock, 1, Two(n, {0}, Retiring, Outside, true));
  }

  lemma SleepForever(n: nat) returns (run: seq<State>, moves: seq<Move>)
    requires n >= 2
    ensures IsRun(run, moves, NoLock) && |run[0].pcs| == n && run[|moves|] == Two(n, {0}, Asleep, Outside, true)
  {
    run, moves := WakeupTooEarly(n);
    run, moves := Extend(run, moves, NoLock, 0, Two(n, {0}, Handover, Outside, true));
    run, moves := Extend(run, moves, NoLock, 0, Two(n, {0}, Dozing, Outside, true));
    run, moves := Extend(run, moves, NoLock, 0, Two(n, {0}, Asleep, Outside, true));
  }

  /** Sleepers can be stranded exactly when wakeup is called without lk and there is somebody to call it. */
  lemma StrandIff(m: Mode, n: nat)
    ensures SomeRunStrands(m, n) <==> m == NoLock && n >= 2
  {
    if m == NoLock && n >= 2 {
      var run, moves := SleepForever(n);
      assert IsRun(run, moves, m) && |run[0].pcs| == n && Stranded(run[|moves|], 0);
    } else if SomeRunStrands(m, n) {
      var run: seq<State>, moves: seq<Move>, k: nat :|
        IsRun(run, moves, m) && |run[0].pcs| == n && Stranded(run[|moves|], k);
      if m == NoLock {
        AloneHears(run, moves, m, |moves|);
      } else {
        NoLostWakeup(run, moves, m, |moves|, k);
      }
    }
  }
}
