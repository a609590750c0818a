/** prog3's worker threads, any number of them, passing a token under a spin lock, one memory access at
    a time. */
module TokenRing {
  import Counting
  import opened Exclusion

  /** Where a worker is in its loop. */
  datatype Pc =
    | Checking               // about to test output < passnum, without the lock
    | Rechecking             // about to test output == passnum, without the lock
    | Spinning               // in lock_acquire
    | Testing                // holds the lock, about to compare itself with workpid
    | Passing                // about to count the pass
    | Turning                // about to increment workpid
    | Wrapping               // about to set workpid to 0 if it has reached the number of threads
    | Leaving                // about to release the lock
    | Done

  const HELD: set<Pc> := {Testing, Passing, Turning, Wrapping, Leaving}

  /** Past the tests of output, with a pass still possible before the next ones. */
  const PENDING: set<Pc> := {Rechecking, Spinning, Testing, Passing}

  /** The shared variables, the threads, and who has made the passes so far. */
  datatype State = State(output: nat, workpid: nat, locked: bool, pcs: seq<Pc>, passes: seq<nat>)

  ghost predicate Step(s: State, i: nat, t: State, passnum: nat) {
    && i < |s.pcs|
    && match s.pcs[i]
       case Checking => t == s.(pcs := s.pcs[i := if s.output < passnum then Rechecking else Done])
       case Rechecking => t == s.(pcs := s.pcs[i := if s.output == passnum then Done else Spinning])
       case Spinning => t == if s.locked then s else s.(locked := true, pcs := s.pcs[i := Testing])
       case Testing => t == s.(pcs := s.pcs[i := if i == s.workpid then Passing else Leaving])
       case Passing => t == s.(output := s.output + 1, passes := s.passes + [i], pcs := s.pcs[i := Turning])
       case Turning => t == s.(workpid := s.workpid + 1, pcs := s.pcs[i := Wrapping])
       case Wrapping => t == s.(workpid := if s.workpid == |s.pcs| then 0 else s.workpid, pcs := s.pcs[i := Leaving])
       case Leaving => t == s.(locked := false, pcs := s.pcs[i := Checking])
       case Done => false
  }

  ghost predicate Initial(s: State) {
    && s.output == 0 && s.workpid == 0 && !s.locked && s.passes == []
    && forall j :: 0 <= j < |s.pcs| ==> s.pcs[j] == Checking
  }

  ghost predicate LockOk(s: State) {
    AtMostOne(s.pcs, HELD) && (s.locked <==> !Free(s.pcs, HELD))
  }

  /** The thread that makes pass number k. */
  function Turn(k: nat, n: nat): nat
    requires n > 0
  {
    k % n
  }

  /** What a thread that is making a pass knows of the turn. */
  ghost predicate TurnAt(s: State, i: nat)
    requires i < |s.pcs|
  {
    match s.pcs[i]
    case Passing => i == s.workpid
    case Turning => i == s.workpid && s.output > 0 && Turn(s.output - 1, |s.pcs|) == i
    case Wrapping => i + 1 == s.workpid && s.output > 0 && Turn(s.output - 1, |s.pcs|) == i
    case _ => true
  }

  /** Whose turn it is follows from the number of passes, except while the two are being updated. */
  ghost predicate TurnOk(s: State)
    requires |s.pcs| > 0
  {
    && (forall i :: 0 <= i < |s.pcs| ==> TurnAt(s, i))
    && (Free(s.pcs, {Turning, Wrapping}) ==> s.workpid == Turn(s.output, |s.pcs|))
  }

  /** Pass number k was made by thread k modulo their number. */
  ghost predicate Rotation(s: State)
    requires |s.pcs| > 0
  {
    |s.passes| == s.output && forall k :: 0 <= k < |s.passes| ==> s.passes[k] == Turn(k, |s.pcs|)
  }

  ghost function Pending(s: State): set<nat> {
    set j: nat | j in Counting.Below(|s.pcs|) && s.pcs[j] in PENDING
  }

  /** Once the last pass is made, only threads that had tested before can add to it. */
  ghost predicate Bounded(s: State, passnum: nat) {
    s.output >= passnum ==> s.output + |Pending(s)| <= passnum + |s.pcs| - 1
  }

  ghost predicate Inv(s: State, passnum: nat) {
    |s.pcs| > 0 && LockOk(s) && TurnOk(s) && Rotation(s) && Bounded(s, passnum)
  }

  lemma StepKeepsLock(s: State, i: nat, t: State, passnum: nat)
    requires LockOk(s) && Step(s, i, t, passnum)
    ensures LockOk(t)
  {
    MoveKeepsOne(s.pcs, i, t.pcs[i], HELD);
    hide AtMostOne;
    if s.pcs[i] in HELD {
      OnlyOne(s.pcs, i, HELD);
    }
    assert t.pcs[i] in HELD ==> !Free(t.pcs, HELD);
    if !Free(s.pcs, HELD) && s.pcs[i] !in HELD {
      var j :| 0 <= j < |s.pcs| && s.pcs[j] in HELD;
      assert t.pcs[j] in HELD;
    }
  }

  lemma StepKeepsTurn(s: State, i: nat, t: State, passnum: nat)
    requires |s.pcs| > 0 && LockOk(s) && TurnOk(s) && Step(s, i, t, passnum)
    ensures TurnOk(t)
  {
    hide TurnOk;
    if s.pcs[i] in HELD {
      OnlyOne(s.pcs, i, HELD);
      TurnStep(s, i, t, passnum);
    } else {
      OtherStep(s, i, t, passnum);
    }
  }

  /** A thread without the lock does not touch the turn. */
  lemma OtherStep(s: State, i: nat, t: State, passnum: nat)
    requires |s.pcs| > 0 && TurnOk(s) && Step(s, i, t, passnum) && s.pcs[i] !in HELD
    ensures TurnOk(t)
  {
    hide Turn;
    assert t.output == s.output && t.workpid == s.workpid && t.pcs == s.pcs[i := t.pcs[i]];
    assert t.pcs[i] !in {Passing, Turning, Wrapping};
    forall j | 0 <= j < |t.pcs| ensures TurnAt(t, j) {
      assert TurnAt(s, j);
    }
    assert forall j :: 0 <= j < |s.pcs| && j != i ==> s.pcs[j] == t.pcs[j];
    assert Free(t.pcs, {Turning, Wrapping}) ==> Free(s.pcs, {Turning, Wrapping});
  }

  /** While one thread holds the lock, no other is updating the turn. */
  lemma TurnStep(s: State, i: nat, t: State, passnum: nat)
    requires |s.pcs| > 0 && TurnOk(s) && Step(s, i, t, passnum) && s.pcs[i] in HELD
    requires forall j :: 0 <= j < |s.pcs| && j != i ==> s.pcs[j] !in HELD
    ensures TurnOk(t)
  {
    hide Turn;
    assert TurnAt(s, i);
    if s.pcs[i] == Passing || s.pcs[i] == Wrapping {
      NextTurn(if s.pcs[i] == Passing then s.output else s.output - 1, |s.pcs|);
    }
    assert forall j :: 0 <= j < |s.pcs| && j != i ==> t.pcs[j] !in HELD;
    assert s.pcs[i] !in {Turning, Wrapping} ==> Free(s.pcs, {Turning, Wrapping});
    assert t.pcs[i] in {Turning, Wrapping} ==> !Free(t.pcs, {Turning, Wrapping});
  }

  /** The next thread round the ring. */
  lemma NextTurn(k: nat, n: nat)
    requires n > 0
    ensures Turn(k + 1, n) == if Turn(k, n) + 1 == n then 0 else Turn(k, n) + 1
  {
    var q, r := k / n, k % n;
    assert k == q * n + r;
    if r + 1 == n {
      assert k + 1 == (q + 1) * n;
      Remainder(q + 1, 0, n);
    } else {
      Remainder(q, r + 1, n);
    }
  }

  lemma Remainder(q: nat, r: nat, n: nat)
    requires r < n
    ensures (q * n + r) % n == r
  {
    var m := q * n + r;
    var q', r' := m / n, m % n;
    assert m == q' * n + r' && 0 <= r' < n;
    Unique(q, r, q', r', n);
    Unique(q', r', q, r, n);
  }

  lemma Unique(q: nat, r: nat, q': nat, r': nat, n: nat)
    requires q * n + r == q' * n + r' && r < n && r' < n
    ensures q <= q' && (q == q' ==> r == r')
  {
    if q > q' {
      assert q * n == q' * n + (q - q') * n;
      AtLeastOnce(q - q', n);
    }
  }

  lemma AtLeastOnce(d: nat, n: nat)
    requires d > 0
    ensures d * n >= n
  {
    assert d * n == n + (d - 1) * n;
  }

  lemma StepKeepsRotation(s: State, i: nat, t: State, passnum: nat)
    requires |s.pcs| > 0 && LockOk(s) && TurnOk(s) && Rotation(s) && Step(s, i, t, passnum)
    ensures Rotation(t)
  {
    hide Turn;
    if s.pcs[i] == Passing {
      assert TurnAt(s, i);
      OnlyOne(s.pcs, i, HELD);
      assert Free(s.pcs, {Turning, Wrapping});
    }
  }

  lemma StepKeepsBound(s: State, i: nat, t: State, passnum: nat)
    requires |s.pcs| > 0 && Bounded(s, passnum) && Step(s, i, t, passnum)
    ensures Bounded(t, passnum)
  {
    hide Counting.Below, Pending;
    if s.pcs[i] == Passing {
      PassUsesUp(s, i, t, passnum);
      Counting.SubsetIsNoLarger(Pending(t), Counting.Below(|s.pcs|) - {i});
    } else if s.output >= passnum {
      NoneJoin(s, i, t, passnum);
      Counting.SubsetIsNoLarger(Pending(t), Pending(s));
    }
  }

  lemma PassUsesUp(s: State, i: nat, t: State, passnum: nat)
    requires Step(s, i, t, passnum) && s.pcs[i] == Passing
    ensures i in Pending(s) && Pending(t) == Pending(s) - {i} && Pending(t) <= Counting.Below(|s.pcs|) - {i}
    ensures i in Counting.Below(|s.pcs|)
  {
    hide Counting.Below;
  }

  lemma NoneJoin(s: State, i: nat, t: State, passnum: nat)
    requires Step(s, i, t, passnum) && s.output >= passnum
    ensures Pending(t) <= Pending(s)
  {
    hide Counting.Below;
    assert t.pcs[i] in PENDING ==> s.pcs[i] in PENDING;
  }

  ghost predicate IsRun(run: seq<State>, who: seq<nat>, passnum: nat) {
    && |run| == |who| + 1 && Initial(run[0]) && |run[0].pcs| > 0
    && forall k :: 0 <= k < |who| ==> Step(run[k], who[k], run[k + 1], passnum)
  }

  lemma InitialKeeps(s: State, passnum: nat)
    requires Initial(s) && |s.pcs| > 0 && passnum > 0
    ensures Inv(s, passnum)
  {
  }

  lemma {:induction false} RunKeeps(run: seq<State>, who: seq<nat>, passnum: nat, k: nat)
    requires IsRun(run, who, passnum) && passnum > 0 && k < |run|
    ensures Inv(run[k], passnum) && |run[k].pcs| == |run[0].pcs|
  {
    hide LockOk, TurnOk, Rotation, Bounded;
    if k == 0 {
      InitialKeeps(run[0], passnum);
    } else {
      RunKeeps(run, who, passnum, k - 1);
      StepKeepsLock(run[k - 1], who[k - 1], run[k], passnum);
      StepKeepsTurn(run[k - 1], who[k - 1], run[k], passnum);
      StepKeepsRotation(run[k - 1], who[k - 1], run[k], passnum);
      StepKeepsBound(run[k - 1], who[k - 1], run[k], passnum);
    }
  }

  /** In every interleaving of any number of threads the token goes round in order, whoever may take it
      is known whenever the lock is free, and the unlocked test overshoots by less than their number. */
  lemma TokenRingSafety(run: seq<State>, who: seq<nat>, passnum: nat, k: nat)
    requires IsRun(run, who, passnum) && passnum > 0 && k < |run|
    ensures |run[k].pcs| > 0 && AtMostOne(run[k].pcs, HELD)
    ensures !run[k].locked ==> run[k].workpid == run[k].output % |run[k].pcs|
    ensures |run[k].passes| == run[k].output
    ensures forall p :: 0 <= p < run[k].output ==> run[k].passes[p] == p % |run[k].pcs|
    ensures run[k].output <= passnum + |run[k].pcs| - 1
  {
    RunKeeps(run, who, passnum, k);
  }

  // ----- the bound is met

  lemma Extend(run: seq<State>, who: seq<nat>, passnum: nat, i: nat, t: State)
    returns (run': seq<State>, who': seq<nat>)
    requires IsRun(run, who, passnum) && Step(run[|who|], i, t, passnum)
    ensures IsRun(run', who', passnum) && run'[0] == run[0] && run'[|who'|] == t
  {
    run', who' := run + [t], who + [i];
  }

  /** No thread holds the lock, and the one whose turn it is waits for it. */
  ghost predicate Ready(s: State) {
    |s.pcs| > 0 && !s.locked && s.workpid == Turn(s.output, |s.pcs|) < |s.pcs| && s.pcs[s.workpid] == Spinning
  }

  /** The state once that thread has taken its turn. */
  function Passed(s: State): State
    requires Ready(s)
  {
    var w := s.workpid;
    State(s.output + 1, Turn(s.output + 1, |s.pcs|), false, s.pcs[w := Checking], s.passes + [w])
  }

  /** Six steps of the thread whose turn it is. */
  lemma TakeTurn(run: seq<State>, who: seq<nat>, passnum: nat) returns (run': seq<State>, who': seq<nat>)
    requires IsRun(run, who, passnum) && Ready(run[|who|])
    ensures IsRun(run', who', passnum) && run'[0] == run[0] && run'[|who'|] == Passed(run[|who|])
  {
    hide Turn;
    var s := run[|who|];
    var w, n, passes := s.workpid, |s.pcs|, s.passes + [s.workpid];
    NextTurn(s.output, n);
    var next := Turn(s.output + 1, n);
    run', who' := Extend(run, who, passnum, w, s.(locked := true, pcs := s.pcs[w := Testing]));
    run', who' := Extend(run', who', passnum, w, s.(locked := true, pcs := s.pcs[w := Passing]));
    run', who' := Extend(run', who', passnum, w, State(s.output + 1, w, true, s.pcs[w := Turning], passes));
    run', who' := Extend(run', who', passnum, w, State(s.output + 1, w + 1, true, s.pcs[w := Wrapping], passes));
    run', who' := Extend(run', who', passnum, w, State(s.output + 1, next, true, s.pcs[w := Leaving], passes));
    run', who' := Extend(run', who', passnum, w, State(s.output + 1, next, false, s.pcs[w := Checking], passes));
  }

  /** A thread makes its two tests of output and goes for the lock. */
  lemma GoForLock(run: seq<State>, who: seq<nat>, passnum: nat, i: nat) returns (run': seq<State>, who': seq<nat>)
    requires IsRun(run, who, passnum) && i < |run[|who|].pcs| && run[|who|].pcs[i] == Checking
    requires run[|who|].output < passnum
    ensures IsRun(run', who', passnum) && run'[0] == run[0]
    ensures run'[|who'|] == run[|who|].(pcs := run[|who|].pcs[i := Spinning])
  {
    var s := run[|who|];
    run', who' := Extend(run, who, passnum, i, s.(pcs := s.pcs[i := Rechecking]));
    run', who' := Extend(run', who', passnum, i, s.(pcs := s.pcs[i := Spinning]));
  }

  /** n threads that all wait for the lock, after k passes. */
  ghost predicate AllSpinning(s: State, n: nat, k: nat)
    requires n > 0
  {
    && s.output == k && !s.locked && s.workpid == Turn(k, n) && |s.pcs| == n
    && forall i :: 0 <= i < n ==> s.pcs[i] == Spinning
  }

  /** Everybody tests before anybody passes. */
  lemma {:induction false} AllTested(n: nat, passnum: nat, m: nat) returns (run: seq<State>, who: seq<nat>)
    requires m <= n && n > 0 && passnum > 0
    ensures IsRun(run, who, passnum) && |run[0].pcs| == n
    ensures run[|who|] == State(0, 0, false, seq(n, i => if i < m then Spinning else Checking), [])
  {
    if m == 0 {
      run, who := [State(0, 0, false, seq(n, i => if i < m then Spinning else Checking), [])], [];
    } else {
      run, who := AllTested(n, passnum, m - 1);
      run, who := GoForLock(run, who, passnum, m - 1);
      assert run[|who|].pcs == seq(n, i => if i < m then Spinning else Checking);
    }
  }

  /** After every pass but the last the passer tests again, with passes still to be made. */
  lemma {:induction false} PassesBeforeLast(n: nat, passnum: nat, k: nat) returns (run: seq<State>, who: seq<nat>)
    requires n > 0 && k < passnum
    ensures IsRun(run, who, passnum) && |run[0].pcs| == n && AllSpinning(run[|who|], n, k)
  {
    if k == 0 {
      run, who := AllTested(n, passnum, n);
    } else {
      run, who := PassesBeforeLast(n, passnum, k - 1);
      TurnInRange(k - 1, n);
      run, who := TakeTurn(run, who, passnum);
      run, who := GoForLock(run, who, passnum, Turn(k - 1, n));
    }
  }

  lemma TurnInRange(k: nat, n: nat)
    requires n > 0
    ensures Turn(k, n) < n
  {
  }

  /** Threads that have not passed since number `start` still wait for the lock. */
  ghost predicate OthersSpinning(s: State, n: nat, start: nat, k: nat)
    requires n > 0
  {
    && s.output == k && !s.locked && s.workpid == Turn(k, n) && |s.pcs| == n
    && forall i :: 0 <= i < n && !PassedSince(n, start, k, i) ==> s.pcs[i] == Spinning
  }

  ghost predicate PassedSince(n: nat, start: nat, k: nat, i: nat)
    requires n > 0
  {
    exists j :: start <= j < k && Turn(j, n) == i
  }

  /** The turns of n passes in a row are all different. */
  lemma TurnsDiffer(a: nat, b: nat, n: nat)
    requires a < b < a + n
    ensures Turn(a, n) != Turn(b, n)
  {
    var q, r, q', r' := a / n, a % n, b / n, b % n;
    assert a == q * n + r && b == q' * n + r';
    assert r == r' ==> (q' - q) * n == b - a;
    assert q' <= q ==> (q - q') * n >= 0;
    if q' > q {
      AtLeastOnce(q' - q, n);
    }
  }

  /** From the last pass on everybody who waits may still pass once. */
  lemma {:induction false} LastPasses(n: nat, passnum: nat, k: nat) returns (run: seq<State>, who: seq<nat>)
    requires n > 0 && passnum > 0 && passnum - 1 <= k <= passnum - 1 + n
    ensures IsRun(run, who, passnum) && |run[0].pcs| == n && OthersSpinning(run[|who|], n, passnum - 1, k)
    decreases k
  {
    hide Turn;
    if k == passnum - 1 {
      run, who := PassesBeforeLast(n, passnum, k);
    } else {
      run, who := LastPasses(n, passnum, k - 1);
      var s, w := run[|who|], Turn(k - 1, n);
      TurnInRange(k - 1, n);
      forall j | passnum - 1 <= j < k - 1 ensures Turn(j, n) != w {
        TurnsDiffer(j, k - 1, n);
      }
      run, who := TakeTurn(run, who, passnum);
      forall i | 0 <= i < n && !PassedSince(n, passnum - 1, k, i) ensures run[|who|].pcs[i] == Spinning {
        assert i != w;
        assert !PassedSince(n, passnum - 1, k - 1, i);
      }
    }
  }

  ghost predicate SomeRunReaches(n: nat, passnum: nat, k: nat) {
    exists run: seq<State>, who: seq<nat> ::
      IsRun(run, who, passnum) && |run[0].pcs| == n && run[|who|].output == k
  }

  /** The numbers of passes that n threads can make: each up to the bound, and none beyond it. */
  lemma ReachIff(n: nat, passnum: nat, k: nat)
    requires n > 0 && passnum > 0
    ensures SomeRunReaches(n, passnum, k) <==> k <= passnum + n - 1
  {
    if k < passnum {
      var run, who := PassesBeforeLast(n, passnum, k);
      assert IsRun(run, who, passnum);
    } else if k <= passnum + n - 1 {
      var run, who := LastPasses(n, passnum, k);
      assert IsRun(run, who, passnum);
    } else if SomeRunReaches(n, passnum, k) {
      var run: seq<State>, who: seq<nat> :|
        IsRun(run, who, passnum) && |run[0].pcs| == n && run[|who|].output == k;
      RunKeeps(run, who, passnum, |who|);
    }
  }

  ghost predicate SomeRunOvershoots(n: nat, passnum: nat) {
    exists k :: k > passnum && SomeRunReaches(n, passnum, k)
  }

  /** The workers can make more passes than asked for exactly when there is more than one of them. */
  lemma OvershootIff(n: nat, passnum: nat)
    requires n > 0 && passnum > 0
    ensures SomeRunOvershoots(n, passnum) <==> n >= 2
  {
    ReachIff(n, passnum, passnum + n - 1);
    if k :| k > passnum && SomeRunReaches(n, passnum, k) {
      ReachIff(n, passnum, k);
    }
  }
}
