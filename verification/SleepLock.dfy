/** Sleep locks for any number of processes, at the granularity of the spin locks that acquiresleep,
    releasesleep, sleep and wakeup take. */
module SleepLock {
  import opened Exclusion
  import Counting
  import W = Wakeup

  /** Where a process is. The names say which spin locks it holds: lk is the sleep lock's own, pt is
      ptable.lock. */
  datatype Pc =
    | Outside                // holds nothing, waits for nothing
    | Wanting                // about to acquire lk in acquiresleep, or again after sleep
    | Testing                // holds lk, about to test `locked`
    | Retiring               // holds lk, found it locked, about to acquire pt in sleep
    | Handover               // holds lk and pt, about to release lk
    | Dozing                 // holds pt, about to mark itself SLEEPING and switch away
    | Asleep                 // SLEEPING on the lock; pt released
    | Holder                 // has the sleep lock
    | Releasing              // has the sleep lock, about to acquire lk in releasesleep
    | Clearing               // holds lk, about to clear `locked`
    | Waking                 // holds lk, has cleared `locked`, about to acquire pt in wakeup
    | Woke                   // holds lk and pt, has run wakeup1

  datatype State = State(locked: bool, pcs: seq<Pc>)

  // The places in which a process has lk, pt and the sleep lock.
  const LK: set<Pc> := {Testing, Retiring, Handover, Clearing, Waking, Woke}
  const PT: set<Pc> := {Handover, Dozing, Woke}
  const LOCK: set<Pc> := {Holder, Releasing, Clearing}

  lemma RouseKeepsOne(pcs: seq<Pc>, places: set<Pc>)
    requires AtMostOne(pcs, places) && Wanting !in places
    ensures AtMostOne(Roused(pcs), places) && (Free(pcs, places) ==> Free(Roused(pcs), places))
  {
  }

  /** wakeup1: every process asleep on the lock will try again. */
  function Roused(pcs: seq<Pc>): (r: seq<Pc>)
    ensures |r| == |pcs| && forall j :: 0 <= j < |pcs| ==> r[j] == if pcs[j] == Asleep then Wanting else pcs[j]
  {
    seq(|pcs|, j requires 0 <= j < |pcs| => if pcs[j] == Asleep then Wanting else pcs[j])
  }

  /** One step of process i. */
  ghost predicate Step(s: State, i: nat, t: State) {
    && i < |s.pcs|
    && match s.pcs[i]
       case Outside => t == s.(pcs := s.pcs[i := Wanting])
       case Wanting => Free(s.pcs, LK) && t == s.(pcs := s.pcs[i := Testing])
       case Testing => if s.locked then t == s.(pcs := s.pcs[i := Retiring]) else t == State(true, s.pcs[i := Holder])
       case Retiring => Free(s.pcs, PT) && t == s.(pcs := s.pcs[i := Handover])
       case Handover => t == s.(pcs := s.pcs[i := Dozing])
       case Dozing => t == s.(pcs := s.pcs[i := Asleep])
       case Asleep => t == s.(pcs := s.pcs[i := Wanting])      // killed: the loop in acquiresleep tests again
       case Holder => t == s.(pcs := s.pcs[i := Releasing])
       case Releasing => Free(s.pcs, LK) && t == s.(pcs := s.pcs[i := Clearing])
       case Clearing => t == State(false, s.pcs[i := Waking])
       case Waking => Free(s.pcs, PT) && t == s.(pcs := Roused(s.pcs)[i := Woke])
       case Woke => t == s.(pcs := s.pcs[i := Outside])
  }

  ghost predicate Initial(s: State) {
    !s.locked && forall j :: 0 <= j < |s.pcs| ==> s.pcs[j] == Outside
  }

  /** At most one process has each lock, and `locked` says whether one has the sleep lock. */
  ghost predicate Exclusive(s: State) {
    && AtMostOne(s.pcs, LK) && AtMostOne(s.pcs, PT) && AtMostOne(s.pcs, LOCK)
    && (s.locked <==> !Free(s.pcs, LOCK))
  }

  ghost predicate WakerComing(s: State) {
    exists j :: 0 <= j < |s.pcs| && s.pcs[j] == Waking
  }

  /** Whoever is going to sleep or asleep will be woken: the lock is held, or its releaser has yet to call
      wakeup1. */
  ghost predicate NoneStranded(s: State) {
    && (forall i :: 0 <= i < |s.pcs| && s.pcs[i] in {Retiring, Handover} ==> s.locked)
    && (forall i :: 0 <= i < |s.pcs| && s.pcs[i] in {Dozing, Asleep} ==> s.locked || WakerComing(s))
  }

  lemma StepKeepsExclusive(s: State, i: nat, t: State)
    requires Exclusive(s) && Step(s, i, t)
    ensures Exclusive(t)
  {
    StepKeepsOne(s, i, t);
    StepKeepsFlag(s, i, t);
  }

  lemma StepKeepsOne(s: State, i: nat, t: State)
    requires Exclusive(s) && Step(s, i, t)
    ensures AtMostOne(t.pcs, LK) && AtMostOne(t.pcs, PT) && AtMostOne(t.pcs, LOCK)
  {
    hide AtMostOne, Free;
    var pcs := if s.pcs[i] == Waking then Roused(s.pcs) else s.pcs;
    RouseKeepsOne(s.pcs, LK);
    RouseKeepsOne(s.pcs, PT);
    RouseKeepsOne(s.pcs, LOCK);
    MoveKeepsOne(pcs, i, t.pcs[i], LK);
    MoveKeepsOne(pcs, i, t.pcs[i], PT);
    MoveKeepsOne(pcs, i, t.pcs[i], LOCK);
  }

  /** `locked` changes together with the process that takes or gives up the lock. */
  lemma StepKeepsFlag(s: State, i: nat, t: State)
    requires Exclusive(s) && Step(s, i, t)
    ensures t.locked <==> !Free(t.pcs, LOCK)
  {
    hide AtMostOne;
    if s.pcs[i] == Clearing {
      OnlyOne(s.pcs, i, LOCK);
    } else if !Free(s.pcs, LOCK) {
      var j :| 0 <= j < |s.pcs| && s.pcs[j] in LOCK;
      assert t.pcs[j] in LOCK;
    } else {
      assert t.pcs[i] in LOCK <==> t.locked;
      assert forall j :: 0 <= j < |t.pcs| && j != i && t.pcs[j] in LOCK ==> s.pcs[j] in LOCK;
    }
  }

  // ----- the sleep lock as a client of sleep and wakeup

  /** Where a process is as far as sleep and wakeup are concerned. */
  function Place(pc: Pc): W.Pc {
    match pc
    case Outside => W.Outside
    case Wanting => W.Wanting
    case Testing => W.Locked
    case Retiring => W.Retiring
    case Handover => W.Handover
    case Dozing => W.Dozing
    case Asleep => W.Asleep
    case Holder => W.Outside
    case Releasing => W.Wanting
    case Clearing => W.Locked
    case Waking => W.Waking
    case Woke => W.Woke
  }

  /** There is one channel, the lock, and everybody's condition is that it is not locked. */
  ghost predicate Shows(s: State, w: W.State) {
    && W.Shaped(w) && |w.pcs| == |s.pcs|
    && (forall k :: 0 <= k < |s.pcs| ==> w.pcs[k] == Place(s.pcs[k]))
    && (forall k :: 0 <= k < |s.pcs| ==> w.chan[k] == 0)
    && w.ready == (if s.locked then {} else Counting.Below(|s.pcs|))
    && w.owed == (if WakerComing(s) then {0} else {})
  }

  /** One or two steps of sleep and wakeup. */
  ghost predicate Follows(w: W.State, i: nat, w': W.State) {
    W.Step(w, i, 0, w', W.OwnLock) || exists v :: W.Step(w, i, 0, v, W.OwnLock) && W.Step(v, i, 0, w', W.OwnLock)
  }

  lemma FollowsKeeps(w: W.State, i: nat, w': W.State)
    requires W.Inv(w, W.OwnLock) && Follows(w, i, w')
    ensures W.Inv(w', W.OwnLock)
  {
    hide W.Inv, W.Step;
    if W.Step(w, i, 0, w', W.OwnLock) {
      W.StepKeeps(w, i, 0, w', W.OwnLock);
    } else {
      var v :| W.Step(w, i, 0, v, W.OwnLock) && W.Step(v, i, 0, w', W.OwnLock);
      W.StepKeeps(w, i, 0, v, W.OwnLock);
      W.StepKeeps(v, i, 0, w', W.OwnLock);
    }
  }

  lemma PlacesAgree(pc: Pc)
    ensures pc in LK <==> Place(pc) in W.LK(W.OwnLock)
    ensures pc in PT <==> Place(pc) in W.PT(W.OwnLock)
  {
  }

  lemma LocksAgree(s: State, w: W.State)
    requires Shows(s, w)
    ensures Free(s.pcs, LK) ==> Free(w.pcs, W.LK(W.OwnLock))
    ensures Free(s.pcs, PT) ==> Free(w.pcs, W.PT(W.OwnLock))
  {
    forall k | 0 <= k < |s.pcs|
      ensures s.pcs[k] in LK <==> w.pcs[k] in W.LK(W.OwnLock)
      ensures s.pcs[k] in PT <==> w.pcs[k] in W.PT(W.OwnLock)
    {
      PlacesAgree(s.pcs[k]);
    }
    hide Place, W.LK, W.PT;
  }

  /** One process has moved. */
  lemma MoveShows(s: State, i: nat, t: State, w: W.State, w': W.State)
    requires Shows(s, w) && i < |s.pcs| == |t.pcs| && t.pcs == s.pcs[i := t.pcs[i]]
    requires W.Shaped(w') && w'.pcs == w.pcs[i := Place(t.pcs[i])] && w'.chan == w.chan
    requires w'.ready == if t.locked then {} else Counting.Below(|s.pcs|)
    requires w'.owed == if WakerComing(t) then {0} else {}
    ensures Shows(t, w')
  {
    hide Place;
  }

  /** The debt is unchanged by a process that neither starts nor ends a call of wakeup. */
  lemma SameWaker(s: State, i: nat, t: State)
    requires i < |s.pcs| == |t.pcs| && t.pcs == s.pcs[i := t.pcs[i]] && (s.pcs[i] == Waking <==> t.pcs[i] == Waking)
    ensures WakerComing(t) <==> WakerComing(s)
  {
    assert forall j :: 0 <= j < |s.pcs| ==> (t.pcs[j] == Waking <==> s.pcs[j] == Waking);
  }

  /** While somebody else has lk, nobody is about to call wakeup. */
  lemma NoWaker(s: State, i: nat)
    requires AtMostOne(s.pcs, LK) && i < |s.pcs| && s.pcs[i] in LK && s.pcs[i] != Waking
    ensures !WakerComing(s)
  {
    OnlyOne(s.pcs, i, LK);
  }

  /** A step that leaves the flag alone and neither tests nor wakes. */
  lemma MoveIsStep(s: State, i: nat, t: State, w: W.State)
    requires Step(s, i, t) && s.pcs[i] !in {Testing, Clearing, Waking, Woke}
    requires W.Shaped(w) && |w.pcs| == |s.pcs| && w.pcs[i] == Place(s.pcs[i])
    requires Free(s.pcs, LK) ==> Free(w.pcs, W.LK(W.OwnLock))
    requires Free(s.pcs, PT) ==> Free(w.pcs, W.PT(W.OwnLock))
    ensures t == s.(pcs := s.pcs[i := t.pcs[i]]) && t.pcs[i] != Waking
    ensures W.Step(w, i, 0, W.Moved(w, i, Place(t.pcs[i])), W.OwnLock)
  {
    hide Free, W.LockedStep, W.Woken, W.LK, W.PT;
  }

  lemma MoveRefines(s: State, i: nat, t: State, w: W.State) returns (w': W.State)
    requires Shows(s, w) && Step(s, i, t) && s.pcs[i] !in {Testing, Clearing, Waking, Woke}
    ensures Shows(t, w') && Follows(w, i, w')
  {
    hide Free, W.LK, W.PT, W.Step, Place, WakerComing;
    LocksAgree(s, w);
    MoveIsStep(s, i, t, w);
    hide Step;
    w' := W.Moved(w, i, Place(t.pcs[i]));
    SameWaker(s, i, t);
    MoveShows(s, i, t, w, w');
  }

  /** acquiresleep's test: it sleeps while the lock is taken and takes it otherwise. */
  lemma TestRefines(s: State, i: nat, t: State, w: W.State) returns (w': W.State)
    requires Shows(s, w) && Exclusive(s) && Step(s, i, t) && s.pcs[i] == Testing
    ensures Shows(t, w') && Follows(w, i, w')
  {
    hide AtMostOne, Free, WakerComing, W.Woken, Counting.Below;
    NoWaker(s, i);
    SameWaker(s, i, t);
    if s.locked {
      w' := W.Moved(w, i, W.Retiring).(chan := w.chan[i := 0], missed := w.missed[i := false]);
      assert W.Retires(w, i, 0, w', W.OwnLock);
      assert W.Step(w, i, 0, w', W.OwnLock);
    } else {
      var v := w.(ready := {});
      w' := W.Moved(v, i, W.Outside);
      assert W.Changes(w, v);
      assert W.Step(w, i, 0, v, W.OwnLock) && W.Step(v, i, 0, w', W.OwnLock);
    }
    hide W.Step;
    MoveShows(s, i, t, w, w');
  }

  lemma WakesNow(s: State, i: nat)
    requires i < |s.pcs| && s.pcs[i] == Waking
    ensures WakerComing(s) && Place(Clearing) == W.Locked && Place(Waking) == W.Waking
  {
  }

  /** releasesleep clears the flag and then owes a wakeup. */
  lemma ClearRefines(s: State, i: nat, t: State, w: W.State) returns (w': W.State)
    requires Shows(s, w) && Exclusive(s) && Step(s, i, t) && s.pcs[i] == Clearing
    ensures Shows(t, w') && Follows(w, i, w')
  {
    hide AtMostOne, Free, WakerComing, W.Woken, Counting.Below, Place;
    NoWaker(s, i);
    assert t.pcs[i] == Waking;
    WakesNow(t, i);
    var v := w.(ready := Counting.Below(|s.pcs|), owed := {0});
    w' := W.Moved(v, i, W.Waking).(chan := v.chan[i := 0]);
    assert W.Changes(w, v);
    assert W.Step(w, i, 0, v, W.OwnLock) && W.Step(v, i, 0, w', W.OwnLock);
    hide W.Step, Step;
    MoveShows(s, i, t, w, w');
  }

  lemma WakeShowsAt(s: State, i: nat, w: W.State, k: nat)
    requires W.Shaped(w) && i < |w.pcs| == |s.pcs| && s.pcs[i] == Waking && k < |s.pcs|
    requires w.pcs[k] == Place(s.pcs[k]) && w.chan[k] == 0
    ensures W.Moved(W.Woken(w, 0), i, W.Woke).pcs[k] == Place(Roused(s.pcs)[i := Woke][k])
  {
  }

  lemma WakeShows(s: State, i: nat, t: State, w: W.State)
    requires Shows(s, w) && AtMostOne(s.pcs, LK) && i < |s.pcs| && s.pcs[i] == Waking
    requires t == s.(pcs := Roused(s.pcs)[i := Woke])
    ensures Shows(t, W.Moved(W.Woken(w, 0), i, W.Woke))
  {
    OnlyOne(s.pcs, i, LK);
    hide AtMostOne, Free, Place;
    assert !WakerComing(t) && WakerComing(s);
    hide WakerComing;
    var w' := W.Moved(W.Woken(w, 0), i, W.Woke);
    forall k | 0 <= k < |s.pcs| ensures w'.pcs[k] == Place(t.pcs[k]) {
      WakeShowsAt(s, i, w, k);
    }
  }

  /** wakeup wakes everybody who sleeps on the lock, and nothing is owed any more. */
  lemma WakeRefines(s: State, i: nat, t: State, w: W.State) returns (w': W.State)
    requires Shows(s, w) && Exclusive(s) && Step(s, i, t) && s.pcs[i] == Waking
    ensures Shows(t, w') && Follows(w, i, w')
  {
    hide AtMostOne, Free, W.Woken;
    LocksAgree(s, w);
    WakeShows(s, i, t, w);
    w' := W.Moved(W.Woken(w, 0), i, W.Woke);
    assert W.Step(w, i, 0, w', W.OwnLock);
  }

  /** The release of pt and then of lk. */
  lemma LeaveRefines(s: State, i: nat, t: State, w: W.State) returns (w': W.State)
    requires Shows(s, w) && Exclusive(s) && Step(s, i, t) && s.pcs[i] == Woke
    ensures Shows(t, w') && Follows(w, i, w')
  {
    hide AtMostOne, Free, WakerComing, W.Woken, Counting.Below;
    NoWaker(s, i);
    SameWaker(s, i, t);
    var v := W.Moved(w, i, W.Locked);
    w' := W.Moved(v, i, W.Outside);
    assert v.owed == {} && W.LockedStep(v, i, 0, w', W.OwnLock);
    assert W.Step(w, i, 0, v, W.OwnLock) && W.Step(v, i, 0, w', W.OwnLock);
    hide W.Step, W.LockedStep;
    MoveShows(s, i, t, w, w');
  }

  /** Each step of acquiresleep and releasesleep is one or two that sleep and wakeup allow their callers. */
  lemma StepRefines(s: State, i: nat, t: State, w: W.State) returns (w': W.State)
    requires Shows(s, w) && Exclusive(s) && Step(s, i, t)
    ensures Shows(t, w') && Follows(w, i, w')
  {
    hide Shows, Exclusive, Follows;
    if s.pcs[i] == Testing {
      w' := TestRefines(s, i, t, w);
    } else if s.pcs[i] == Clearing {
      w' := ClearRefines(s, i, t, w);
    } else if s.pcs[i] == Waking {
      w' := WakeRefines(s, i, t, w);
    } else if s.pcs[i] == Woke {
      w' := LeaveRefines(s, i, t, w);
    } else {
      w' := MoveRefines(s, i, t, w);
    }
  }

  lemma ShownStrandsNoneAt(s: State, w: W.State, k: nat)
    requires Shows(s, w) && k < |s.pcs| && W.Heard(w, k)
    ensures s.pcs[k] in {Retiring, Handover} ==> s.locked
    ensures s.pcs[k] in {Dozing, Asleep} ==> s.locked || WakerComing(s)
  {
    hide WakerComing;
    assert w.pcs[k] == Place(s.pcs[k]) && k in Counting.Below(|s.pcs|);
  }

  /** So what sleep and wakeup promise holds of the lock. */
  lemma ShownStrandsNone(s: State, w: W.State)
    requires Shows(s, w) && W.Inv(w, W.OwnLock)
    ensures NoneStranded(s)
  {
    hide W.Heard, WakerComing, Place;
    forall k | 0 <= k < |s.pcs|
      ensures s.pcs[k] in {Retiring, Handover} ==> s.locked
      ensures s.pcs[k] in {Dozing, Asleep} ==> s.locked || WakerComing(s)
    {
      assert W.Heard(w, k);
      ShownStrandsNoneAt(s, w, k);
    }
  }

  ghost predicate IsRun(run: seq<State>, who: seq<nat>) {
    |run| == |who| + 1 && Initial(run[0]) && forall n :: 0 <= n < |who| ==> Step(run[n], who[n], run[n + 1])
  }

  lemma InitialShown(s: State) returns (w: W.State)
    requires Initial(s)
    ensures Exclusive(s) && Shows(s, w) && W.Inv(w, W.OwnLock)
  {
    var n := |s.pcs|;
    w := W.State(Counting.Below(n), {}, seq(n, k => W.Outside), seq(n, k => 0), seq(n, k => false));
    W.InitialKeeps(w, W.OwnLock);
    hide W.Inv;
  }

  lemma {:induction false} RunKeeps(run: seq<State>, who: seq<nat>, n: nat) returns (w: W.State)
    requires IsRun(run, who) && n < |run|
    ensures Exclusive(run[n]) && Shows(run[n], w) && W.Inv(w, W.OwnLock)
  {
    hide Exclusive, Shows, W.Inv, Step, Follows, Initial;
    if n == 0 {
      w := InitialShown(run[0]);
    } else {
      var v := RunKeeps(run, who, n - 1);
      StepKeepsExclusive(run[n - 1], who[n - 1], run[n]);
      w := StepRefines(run[n - 1], who[n - 1], run[n], v);
      FollowsKeeps(v, who[n - 1], w);
    }
  }

  /** In every run of any number of processes there is one holder at most, and while the sleep lock and
      its spin lock are free nobody sleeps on it. */
  lemma SleepLockSafety(run: seq<State>, who: seq<nat>, n: nat)
    requires IsRun(run, who) && n < |run|
    ensures AtMostOne(run[n].pcs, LOCK) && (run[n].locked <==> !Free(run[n].pcs, LOCK))
    ensures !run[n].locked && Free(run[n].pcs, LK) ==> forall i :: 0 <= i < |run[n].pcs| ==> run[n].pcs[i] != Asleep
  {
    var w := RunKeeps(run, who, n);
    ShownStrandsNone(run[n], w);
  }

  /** Somebody who is neither outside nor asleep can go on. */
  ghost predicate SomeoneMoves(s: State) {
    exists i, t :: 0 <= i < |s.pcs| && s.pcs[i] !in {Outside, Asleep} && Step(s, i, t)
  }

  lemma Moves(s: State, i: nat, t: State)
    requires i < |s.pcs| && s.pcs[i] !in {Outside, Asleep} && Step(s, i, t)
    ensures SomeoneMoves(s)
  {
  }

  /** A process that holds spin locks, or could take one because nobody holds it, can go on. */
  lemma CanMove(s: State, i: nat)
    requires i < |s.pcs| && s.pcs[i] !in {Outside, Asleep}
    requires s.pcs[i] in PT || (Free(s.pcs, PT) && (s.pcs[i] in LK || Free(s.pcs, LK)))
    ensures SomeoneMoves(s)
  {
    hide SomeoneMoves, Free;
    match s.pcs[i]
    case Wanting => Moves(s, i, s.(pcs := s.pcs[i := Testing]));
    case Testing => Moves(s, i, if s.locked then s.(pcs := s.pcs[i := Retiring]) else State(true, s.pcs[i := Holder]));
    case Retiring => Moves(s, i, s.(pcs := s.pcs[i := Handover]));
    case Handover => Moves(s, i, s.(pcs := s.pcs[i := Dozing]));
    case Dozing => Moves(s, i, s.(pcs := s.pcs[i := Asleep]));
    case Holder => Moves(s, i, s.(pcs := s.pcs[i := Releasing]));
    case Releasing => Moves(s, i, s.(pcs := s.pcs[i := Clearing]));
    case Clearing => Moves(s, i, State(false, s.pcs[i := Waking]));
    case Waking => Moves(s, i, s.(pcs := Roused(s.pcs)[i := Woke]));
    case Woke => Moves(s, i, s.(pcs := s.pcs[i := Outside]));
  }

  /** No run ends in a deadlock: unless all processes are outside, somebody can go on without being killed. */
  lemma NoDeadlock(run: seq<State>, who: seq<nat>, n: nat)
    requires IsRun(run, who) && n < |run| && exists k :: 0 <= k < |run[n].pcs| && run[n].pcs[k] != Outside
    ensures SomeoneMoves(run[n])
  {
    hide SomeoneMoves;
    SleepLockSafety(run, who, n);
    var s := run[n];
    if j :| 0 <= j < |s.pcs| && s.pcs[j] in PT {
      CanMove(s, j);
    } else if j :| 0 <= j < |s.pcs| && s.pcs[j] in LK {
      CanMove(s, j);
    } else if j :| 0 <= j < |s.pcs| && s.pcs[j] !in {Outside, Asleep} {
      CanMove(s, j);
    } else {
      assert false;
    }
  }
}
