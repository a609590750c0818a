/** The process table under ptable.lock: sleep, wakeup1, kill, exit and wait, each as what one hold of
    the lock does, and the runs that these make up. */
module ProcTable {
  import opened Processes
  import opened Wrappers

  /** What a process sleeps on: a process table entry, as in wait, or some other address. */
  datatype Chan = NoChan | OfProc(i: nat) | Other(id: nat)

  datatype Proc = Proc(state: ProcState, pid: int, parent: Option<nat>, chan: Chan, killed: bool, thread: bool)

  type Table = seq<Proc>

  /** wakeup1's effect on one entry. */
  function Wake(p: Proc, c: Chan): Proc {
    if p.state == Sleeping && p.chan == c then p.(state := Runnable) else p
  }

  function Woken(ps: Table, c: Chan): (r: Table)
    ensures |r| == |ps| && forall i :: 0 <= i < |ps| ==> r[i] == Wake(ps[i], c)
  {
    seq(|ps|, i requires 0 <= i < |ps| => Wake(ps[i], c))
  }

  function ChanOf(parent: Option<nat>): Chan {
    match parent
    case Some(i) => OfProc(i)
    case None => NoChan
  }

  /** Asleep in wait: on the channel that is the process itself. */
  predicate InWait(ps: Table, w: nat) {
    w < |ps| && ps[w].state == Sleeping && ps[w].chan == OfProc(w)
  }

  /** No process is asleep in wait while it has a child to reap. */
  ghost predicate NoneForgotten(ps: Table) {
    forall w, c :: 0 <= w < |ps| && 0 <= c < |ps| && ps[c].parent == Some(w) && ps[c].state == Zombie ==> !InWait(ps, w)
  }

  /** Nobody is its own parent, and init, once started, has none and does not exit. */
  ghost predicate TreeOk(ps: Table, init: nat) {
    && (forall i :: 0 <= i < |ps| ==> ps[i].parent != Some(i))
    && init < |ps| && ps[init].parent.None? && ps[init].state in {Sleeping, Runnable, Running}
  }

  ghost predicate Inv(ps: Table, init: nat) {
    NoneForgotten(ps) && TreeOk(ps, init)
  }

  /** A child of this entry waits to be reaped. */
  ghost predicate HasZombie(ps: Table, me: nat) {
    exists c :: 0 <= c < |ps| && ps[c].parent == Some(me) && ps[c].state == Zombie
  }

  /** What becomes of another entry when `me` exits: its children go to init, whoever sleeps on its
      parent wakes, and so does whoever sleeps on init if a zombie goes there. */
  ghost function AfterExit(ps: Table, me: nat, init: nat, p: Proc): Proc
    requires me < |ps|
  {
    var called := p.chan == ChanOf(ps[me].parent) || (p.chan == OfProc(init) && HasZombie(ps, me));
    var wakes := p.state == Sleeping && called;
    p.(parent := if p.parent == Some(me) then Some(init) else p.parent, state := if wakes then Runnable else p.state)
  }

  /** The table after exit of entry `me`. */
  ghost predicate Exited(ps: Table, ps': Table, me: nat, init: nat)
    requires me < |ps|
  {
    |ps'| == |ps| && forall i :: 0 <= i < |ps| ==>
      ps'[i] == if i == me then AfterExit(ps, me, init, ps[i]).(state := Zombie) else AfterExit(ps, me, init, ps[i])
  }

  /** What exit's loop makes of an entry: a child goes to init, and whoever sleeps on init wakes if some child
      was a zombie. */
  function Passed(p: Proc, me: nat, init: nat, seen: bool, zombie: bool): Proc {
    p.(parent := if seen && p.parent == Some(me) then Some(init) else p.parent,
       state := if zombie && p.state == Sleeping && p.chan == OfProc(init) then Runnable else p.state)
  }

  datatype WaitResult = Reaped(child: nat, pid: int) | NoChildren | Asleep

  /** What wait does to an entry it reaps; a thread keeps its pid and its parent. */
  function Reap(p: Proc): Proc {
    if p.thread then p.(state := Unused) else p.(state := Unused, pid := 0, parent := None, killed := false)
  }

  ghost predicate Waited(ps: Table, ps': Table, me: nat, r: WaitResult)
    requires me < |ps|
  {
    match r
    case Reaped(c, pid) =>
      c < |ps| && ps[c].parent == Some(me) && ps[c].state == Zombie && pid == ps[c].pid && ps' == ps[c := Reap(ps[c])]
    case NoChildren =>
      ps' == ps && (ps[me].killed || forall c :: 0 <= c < |ps| ==> ps[c].parent != Some(me)) && !HasZombie(ps, me)
    case Asleep =>
      && ps' == ps[me := ps[me].(state := Sleeping, chan := OfProc(me))]
      && !ps[me].killed && !HasZombie(ps, me) && HasKids(ps, me)
  }

  ghost predicate HasKids(ps: Table, me: nat) {
    exists c :: 0 <= c < |ps| && ps[c].parent == Some(me)
  }

  class Ptable {
    var procs: Table
    const init: nat

    constructor (ps: Table, i: nat)
      ensures procs == ps && init == i
    {
      procs, init := ps, i;
    }

    method Wakeup1(c: Chan)
      modifies this`procs
      ensures procs == Woken(old(procs), c)
      ensures |procs| == |old(procs)| && forall i :: 0 <= i < |procs| ==>
                var p := old(procs)[i];
                procs[i] == if p.state == Sleeping && p.chan == c then p.(state := Runnable) else p
    {
      for i := 0 to |procs|
        invariant |procs| == |old(procs)|
        invariant forall j :: 0 <= j < |procs| ==> procs[j] == if j < i then Wake(old(procs)[j], c) else old(procs)[j]
      {
        if procs[i].state == Sleeping && procs[i].chan == c {
          procs := procs[i := procs[i].(state := Runnable)];
        }
      }
    }

    /** exit, from its acquire of ptable.lock to sched. */
    method Exit(me: nat)
      requires me < |procs| && me != init && procs[me].state == Running
      modifies this`procs
      ensures Exited(old(procs), procs, me, init)
      ensures |procs| == |old(procs)| && procs[me].state == Zombie
      ensures forall i :: 0 <= i < |procs| ==>
                procs[i].parent == if old(procs)[i].parent == Some(me) then Some(init) else old(procs)[i].parent
    {
      Wakeup1(ChanOf(procs[me].parent));
      ghost var ps1, zombie := procs, false;
      for i := 0 to |procs|
        invariant |procs| == |ps1|
        invariant zombie <==> exists c :: 0 <= c < i && ps1[c].parent == Some(me) && ps1[c].state == Zombie
        invariant forall j :: 0 <= j < |procs| ==>
                    procs[j] == Passed(ps1[j], me, init, j < i, zombie)
      {
        if procs[i].parent == Some(me) {
          procs := procs[i := procs[i].(parent := Some(init))];
          if procs[i].state == Zombie {
            Wakeup1(OfProc(init));
            zombie := true;
          }
        }
      }
      procs := procs[me := procs[me].(state := Zombie)];
      ExitReached(old(procs), ps1, procs, me, init, zombie);
    }

    /** One hold of ptable.lock in wait: the scan, and sleep when there is nothing to reap. */
    method Wait(me: nat) returns (r: WaitResult)
      requires me < |procs| && procs[me].state == Running
      modifies this`procs
      ensures Waited(old(procs), procs, me, r)
      ensures r.Reaped? ==> forall c :: 0 <= c < r.child ==>
                old(procs)[c].parent != Some(me) || old(procs)[c].state != Zombie
    {
      var havekids := false;
      for i := 0 to |procs|
        invariant procs == old(procs) && (havekids <==> exists c :: 0 <= c < i && procs[c].parent == Some(me))
        invariant forall c :: 0 <= c < i && procs[c].parent == Some(me) ==> procs[c].state != Zombie
      {
        if procs[i].parent == Some(me) {
          havekids := true;
          if procs[i].state == Zombie {
            var pid := procs[i].pid;
            procs := procs[i := Reap(procs[i])];
            return Reaped(i, pid);
          }
        }
      }
      if !havekids || procs[me].killed {
        return NoChildren;
      }
      Sleep(me, OfProc(me));
      return Asleep;
    }

    /** sleep, once it holds ptable.lock. */
    method Sleep(me: nat, c: Chan)
      requires me < |procs|
      modifies this`procs
      ensures procs == old(procs)[me := old(procs)[me].(state := Sleeping, chan := c)]
    {
      procs := procs[me := procs[me].(chan := c)];
      procs := procs[me := procs[me].(state := Sleeping)];
    }

    /** Mark the first process with this pid, and wake it whatever it sleeps on. */
    method Kill(pid: int) returns (k: Option<nat>)
      modifies this`procs
      ensures k.Some? ==> k.value < |old(procs)| && procs == Killed(old(procs), k.value)
      ensures k.Some? ==> old(procs)[k.value].pid == pid
      ensures k.Some? ==> forall i :: 0 <= i < k.value ==> old(procs)[i].pid != pid
      ensures k.None? ==> procs == old(procs) && forall i :: 0 <= i < |procs| ==> procs[i].pid != pid
    {
      for i := 0 to |procs|
        invariant procs == old(procs) && forall j :: 0 <= j < i ==> procs[j].pid != pid
      {
        if procs[i].pid == pid {
          procs := procs[i := procs[i].(killed := true)];
          if procs[i].state == Sleeping {
            procs := procs[i := procs[i].(state := Runnable)];
          }
          return Some(i);
        }
      }
      return None;
    }
  }

  function Killed(ps: Table, k: nat): Table
    requires k < |ps|
  {
    ps[k := ps[k].(killed := true, state := if ps[k].state == Sleeping then Runnable else ps[k].state)]
  }

  // ----- runs

  datatype Event =
    | Allocate(slot: nat, pid: int)           // allocproc takes an unused entry,
    | Abandon(slot: nat)                      // or gives it back when memory is short;
    | Start(slot: nat, parent: nat)           // fork makes it a runnable child,
    | Clone(slot: nat, parent: nat)           // and clone a runnable thread
    | Dispatch(i: nat)                        // the scheduler runs a process,
    | Yield(i: nat)                           // which gives up the processor,
    | SleepOn(i: nat, c: Chan)                // sleeps on something that is not a process,
    | Wakeup(c: Chan)                         // or wakes all sleepers on a channel
    | KillIt(i: nat)
    | ExitIt(i: nat)
    | WaitIt(i: nat, r: WaitResult)

  ghost predicate Step(ps: Table, e: Event, ps': Table, init: nat) {
    match e
    case Allocate(s, pid) =>
      s < |ps| && ps[s].state == Unused && ps' == ps[s := ps[s].(state := Embryo, pid := pid, thread := false)]
    case Abandon(s) => s < |ps| && ps[s].state == Embryo && ps' == ps[s := ps[s].(state := Unused)]
    case Start(s, p) =>
      && s < |ps| && p < |ps| && ps[s].state == Embryo && ps[p].state == Running
      && ps' == ps[s := ps[s].(state := Runnable, parent := Some(p))]
    case Clone(s, p) =>
      && s < |ps| && p < |ps| && ps[s].state == Embryo && ps[p].state == Running
      && ps' == ps[s := ps[s].(state := Runnable, parent := Some(p), thread := true)]
    case Dispatch(i) => i < |ps| && ps[i].state == Runnable && ps' == ps[i := ps[i].(state := Running, chan := NoChan)]
    case Yield(i) => i < |ps| && ps[i].state == Running && ps' == ps[i := ps[i].(state := Runnable)]
    case SleepOn(i, c) =>
      i < |ps| && ps[i].state == Running && c.Other? && ps' == ps[i := ps[i].(state := Sleeping, chan := c)]
    case Wakeup(c) => ps' == Woken(ps, c)
    case KillIt(i) => i < |ps| && ps' == Killed(ps, i)
    case ExitIt(i) => i < |ps| && i != init && ps[i].state == Running && Exited(ps, ps', i, init)
    case WaitIt(i, r) => i < |ps| && ps[i].state == Running && Waited(ps, ps', i, r)
  }

  /** The effects of exit's wakeups and of its loop, put together. */
  lemma ExitReached(ps: Table, ps1: Table, ps': Table, me: nat, init: nat, zombie: bool)
    requires me < |ps| && ps1 == Woken(ps, ChanOf(ps[me].parent)) && |ps'| == |ps1| && ps[me].state == Running
    requires zombie <==> exists c :: 0 <= c < |ps1| && ps1[c].parent == Some(me) && ps1[c].state == Zombie
    requires forall j :: 0 <= j < |ps'| && j != me ==>
               ps'[j] == Passed(ps1[j], me, init, true, zombie)
    requires ps'[me] == Passed(ps[me], me, init, true, false).(state := Zombie)
    ensures Exited(ps, ps', me, init)
  {
    assert zombie <==> HasZombie(ps, me) by {
      assert forall c :: 0 <= c < |ps| ==> ps1[c].parent == ps[c].parent;
      assert forall c :: 0 <= c < |ps| ==> (ps1[c].state == Zombie <==> ps[c].state == Zombie);
    }
  }

  lemma ExitKeeps(ps: Table, ps': Table, me: nat, init: nat)
    requires Inv(ps, init) && me < |ps| && me != init && ps[me].state == Running && Exited(ps, ps', me, init)
    ensures Inv(ps', init)
  {
    forall w, c | 0 <= w < |ps'| && 0 <= c < |ps'| && ps'[c].parent == Some(w) && ps'[c].state == Zombie
      ensures !InWait(ps', w)
    {
      assert c != me ==> ps[c].state == Zombie;
      assert InWait(ps', w) ==> InWait(ps, w);
    }
  }

  /** A change to one entry that makes no zombie, and no sleeper in wait that has one. */
  lemma EntryKeeps(ps: Table, i: nat, p: Proc, init: nat)
    requires Inv(ps, init) && i < |ps| && p.parent != Some(i)
    requires i == init ==> p.parent.None? && p.state in {Sleeping, Runnable, Running}
    requires p.state == Zombie ==> ps[i].state == Zombie && p.parent == ps[i].parent
    requires p.state == Sleeping && p.chan == OfProc(i) ==> !HasZombie(ps, i)
    ensures Inv(ps[i := p], init)
  {
    var ps' := ps[i := p];
    forall w, c | 0 <= w < |ps'| && 0 <= c < |ps'| && ps'[c].parent == Some(w) && ps'[c].state == Zombie
      ensures !InWait(ps', w)
    {
      assert ps[c].parent == Some(w) && ps[c].state == Zombie;
      assert !InWait(ps, w);
    }
  }

  lemma WakeupKeeps(ps: Table, c: Chan, init: nat)
    requires Inv(ps, init)
    ensures Inv(Woken(ps, c), init)
  {
  }

  /** The entry that an event other than a wakeup or an exit changes. */
  function Touched(e: Event): nat
    requires !e.Wakeup? && !e.ExitIt?
  {
    match e
    case Allocate(s, _) => s
    case Abandon(s) => s
    case Start(s, _) => s
    case Clone(s, _) => s
    case Dispatch(i) => i
    case Yield(i) => i
    case SleepOn(i, _) => i
    case KillIt(i) => i
    case WaitIt(i, r) => if r.Reaped? then r.child else i
  }

  lemma StepKeeps(ps: Table, e: Event, ps': Table, init: nat)
    requires Inv(ps, init) && Step(ps, e, ps', init)
    ensures Inv(ps', init)
  {
    hide Exited, NoneForgotten, Woken;
    match e
    case ExitIt(i) => ExitKeeps(ps, ps', i, init);
    case Wakeup(c) => WakeupKeeps(ps, c, init);
    case _ =>
      var i := Touched(e);
      assert ps' == ps[i := ps'[i]];
      EntryKeeps(ps, i, ps'[i], init);
  }

  /** A sleeper is woken only by kill, by a wakeup of its own channel, or by the exit of a process that its channel
      is the parent of, or will be. */
  lemma WokenOnlyByItsChannel(ps: Table, e: Event, ps': Table, init: nat, i: nat)
    requires Step(ps, e, ps', init) && i < |ps| && ps[i].state == Sleeping
    ensures |ps'| == |ps|
    ensures ps'[i].state != Sleeping ==>
              || e == KillIt(i) || e == Wakeup(ps[i].chan)
              || (e.ExitIt? && e.i < |ps| && ps[i].chan in {ChanOf(ps[e.i].parent), OfProc(init)})
  {
    hide HasZombie, HasKids;
  }

  /** The table once userinit has started the first process. */
  function Boot(n: nat): Table {
    seq(n, i => Proc(if i == 0 then Runnable else Unused, if i == 0 then 1 else 0, None, NoChan, false, false))
  }

  lemma BootKeeps(n: nat)
    requires n > 0
    ensures Inv(Boot(n), 0)
  {
  }

  ghost predicate Steps(run: seq<Table>, events: seq<Event>, init: nat) {
    |run| == |events| + 1 && forall k :: 0 <= k < |events| ==> Step(run[k], events[k], run[k + 1], init)
  }

  /** In every run, a process asleep in wait has no zombie child. */
  lemma {:induction false} WaitMissesNone(run: seq<Table>, events: seq<Event>, init: nat, k: nat)
    requires Steps(run, events, init) && Inv(run[0], init) && k < |run|
    ensures Inv(run[k], init)
  {
    if k > 0 {
      WaitMissesNone(run, events, init, k - 1);
      StepKeeps(run[k - 1], events[k - 1], run[k], init);
    }
  }

  /** A run from boot on a table of n entries. */
  ghost predicate IsRun(run: seq<Table>, events: seq<Event>, n: nat) {
    Steps(run, events, 0) && run[0] == Boot(n) && n > 0
  }

  // ----- every zombie has somebody to reap it

  /** A process that can still run: exit, wake its parent, and reap its children. */
  predicate Live(p: Proc) {
    p.state in {Sleeping, Runnable, Running}
  }

  /** An entry's parent is alive, every process but init has one from its start until it is reaped, and nobody who
      is marked killed sleeps in wait. */
  ghost predicate EntryOk(ps: Table, c: nat, init: nat)
    requires c < |ps|
  {
    && (ps[c].parent.Some? ==> ps[c].parent.value < |ps| && Live(ps[ps[c].parent.value]))
    && (c != init && (Live(ps[c]) || ps[c].state == Zombie) ==> ps[c].parent.Some?)
    && (InWait(ps, c) ==> !ps[c].killed)
  }

  ghost predicate FamilyOk(ps: Table, init: nat) {
    forall c :: 0 <= c < |ps| ==> EntryOk(ps, c, init)
  }

  lemma ExitKeepsFamily(ps: Table, ps': Table, me: nat, init: nat)
    requires Inv(ps, init) && FamilyOk(ps, init) && me < |ps| && me != init && ps[me].state == Running
    requires Exited(ps, ps', me, init)
    ensures FamilyOk(ps', init)
  {
    hide NoneForgotten, HasZombie, AfterExit, EntryOk;
    forall c | 0 <= c < |ps| ensures EntryOk(ps', c, init) {
      assert EntryOk(ps, c, init);
      ExitKeepsEntry(ps, ps', me, init, c);
    }
  }

  lemma ExitKeepsEntry(ps: Table, ps': Table, me: nat, init: nat, c: nat)
    requires c < |ps| && Inv(ps, init) && EntryOk(ps, c, init) && me < |ps| && me != init && ps[me].state == Running
    requires ps[c].parent != Some(c) && Exited(ps, ps', me, init)
    ensures EntryOk(ps', c, init)
  {
    hide NoneForgotten, HasZombie;
    assert init < |ps|;
    if ps[c].parent.Some? && ps[c].parent != Some(me) {
      assert ps'[ps[c].parent.value].state in {ps[ps[c].parent.value].state, Runnable};
    }
  }

  lemma WakeupKeepsFamily(ps: Table, c: Chan, init: nat)
    requires FamilyOk(ps, init)
    ensures FamilyOk(Woken(ps, c), init)
  {
    forall i | 0 <= i < |ps| ensures EntryOk(Woken(ps, c), i, init) {
      assert EntryOk(ps, i, init);
    }
  }

  /** A change to one entry: it may stop being alive only if it is nobody's parent. */
  lemma EntryKeepsFamily(ps: Table, i: nat, p: Proc, init: nat)
    requires FamilyOk(ps, init) && i < |ps| && (Live(ps[i]) ==> Live(p))
    requires p.parent.Some? ==> p.parent.value < |ps| && p.parent.value != i && Live(ps[p.parent.value])
    requires i != init && (Live(p) || p.state == Zombie) ==> p.parent.Some?
    requires p.state == Sleeping && p.chan == OfProc(i) ==> !p.killed
    ensures FamilyOk(ps[i := p], init)
  {
    var ps' := ps[i := p];
    forall c | 0 <= c < |ps| ensures EntryOk(ps', c, init) {
      assert EntryOk(ps, c, init);
    }
  }

  lemma FamilyAt(ps: Table, i: nat, init: nat)
    requires Inv(ps, init) && FamilyOk(ps, init) && i < |ps|
    ensures ps[i].parent.Some? ==>
              ps[i].parent.value < |ps| && ps[i].parent.value != i && Live(ps[ps[i].parent.value])
    ensures i != init && (Live(ps[i]) || ps[i].state == Zombie) ==> ps[i].parent.Some?
    ensures InWait(ps, i) ==> !ps[i].killed
    ensures i == init ==> Live(ps[i])
  {
    hide NoneForgotten;
    assert EntryOk(ps, i, init);
  }

  lemma StepKeepsFamily(ps: Table, e: Event, ps': Table, init: nat)
    requires Inv(ps, init) && FamilyOk(ps, init) && Step(ps, e, ps', init)
    ensures FamilyOk(ps', init)
  {
    hide Exited, Woken, HasZombie, HasKids, FamilyOk, Inv;
    match e
    case ExitIt(i) => ExitKeepsFamily(ps, ps', i, init);
    case Wakeup(c) => WakeupKeepsFamily(ps, c, init);
    case _ =>
      var i := Touched(e);
      assert ps' == ps[i := ps'[i]];
      FamilyAt(ps, i, init);
      EntryKeepsFamily(ps, i, ps'[i], init);
  }

  lemma {:induction false} RunKeepsFamily(run: seq<Table>, events: seq<Event>, n: nat, k: nat)
    requires IsRun(run, events, n) && k < |run|
    ensures Inv(run[k], 0) && FamilyOk(run[k], 0)
  {
    hide Step, NoneForgotten, FamilyOk;
    if k > 0 {
      RunKeepsFamily(run, events, n, k - 1);
      StepKeeps(run[k - 1], events[k - 1], run[k], 0);
      StepKeepsFamily(run[k - 1], events[k - 1], run[k], 0);
    } else {
      BootKeeps(n);
      BootFamily(n);
    }
  }

  lemma BootFamily(n: nat)
    requires n > 0
    ensures FamilyOk(Boot(n), 0)
  {
  }

  /** In every run every zombie has a parent that is alive and not asleep in wait, and whose wait reaps. */
  lemma ZombieHasReaper(run: seq<Table>, events: seq<Event>, n: nat, k: nat, c: nat) returns (w: nat)
    requires IsRun(run, events, n) && k < |run| && c < |run[k]| && run[k][c].state == Zombie
    ensures w < |run[k]| && w != c && run[k][c].parent == Some(w) && Live(run[k][w]) && !InWait(run[k], w)
    ensures forall ps, r :: Step(run[k], WaitIt(w, r), ps, 0) ==> r.Reaped?
  {
    RunKeepsFamily(run, events, n, k);
    FamilyAt(run[k], c, 0);
    w := run[k][c].parent.value;
    assert HasZombie(run[k], w);
  }

  /** In every run, whoever is some entry's parent is alive, so an orphan's parent is init. */
  lemma ParentIsAlive(run: seq<Table>, events: seq<Event>, n: nat, k: nat, c: nat)
    requires IsRun(run, events, n) && k < |run| && c < |run[k]| && run[k][c].parent.Some?
    ensures run[k][c].parent.value < |run[k]| && Live(run[k][run[k][c].parent.value])
    ensures k > 0 && events[k - 1].ExitIt? && c < |run[k - 1]| && run[k - 1][c].parent == Some(events[k - 1].i) ==>
              run[k][c].parent == Some(0)
  {
    RunKeepsFamily(run, events, n, k);
    FamilyAt(run[k], c, 0);
    if k > 0 {
      assert Step(run[k - 1], events[k - 1], run[k - 1 + 1], 0);
    }
  }

  // ----- marks and numbers go with the process

  /** The entries that kill has hit since they were last reaped. */
  function Hit(events: seq<Event>, k: nat): set<nat>
    requires k <= |events|
  {
    if k == 0 then {}
    else
      var before := Hit(events, k - 1);
      match events[k - 1]
      case KillIt(i) => before + {i}
      case WaitIt(_, Reaped(c, _)) => before - {c}
      case _ => before
  }

  /** The entries whose latest process was made by clone. */
  function Cloned(events: seq<Event>, k: nat): set<nat>
    requires k <= |events|
  {
    if k == 0 then {}
    else
      var before := Cloned(events, k - 1);
      match events[k - 1]
      case Clone(s, _) => before + {s}
      case Allocate(s, _) => before - {s}
      case _ => before
  }

  lemma StepThreads(ps: Table, e: Event, ps': Table, init: nat, i: nat)
    requires Step(ps, e, ps', init) && i < |ps|
    ensures |ps'| == |ps|
    ensures ps'[i].thread <==> if e.Clone? && e.slot == i then true
                               else if e.Allocate? && e.slot == i then false else ps[i].thread
  {
    hide HasZombie, HasKids;
  }

  /** In every run an entry is a thread's exactly if clone made its latest process. */
  lemma {:induction false} ThreadIffCloned(run: seq<Table>, events: seq<Event>, n: nat, k: nat, i: nat)
    requires IsRun(run, events, n) && k < |run| && i < n
    ensures |run[k]| == n && (run[k][i].thread <==> i in Cloned(events, k))
  {
    hide Step;
    if k > 0 {
      ThreadIffCloned(run, events, n, k - 1, i);
      assert Step(run[k - 1], events[k - 1], run[k - 1 + 1], 0);
      StepThreads(run[k - 1], events[k - 1], run[k], 0, i);
    }
  }

  /** pids are handed out in order; userinit took the first. */
  function LastPid(events: seq<Event>, k: nat): int
    requires k <= |events|
  {
    if k == 0 then 1 else if events[k - 1].Allocate? then events[k - 1].pid else LastPid(events, k - 1)
  }

  ghost predicate Numbered(events: seq<Event>) {
    forall k :: 0 <= k < |events| && events[k].Allocate? ==> events[k].pid == LastPid(events, k) + 1
  }

  ghost predicate ReapsNoThread(ps: Table, e: Event) {
    e.WaitIt? && e.r.Reaped? && e.r.child < |ps| ==> !ps[e.r.child].thread
  }

  lemma StepMarks(ps: Table, e: Event, ps': Table, init: nat, i: nat)
    requires Step(ps, e, ps', init) && ReapsNoThread(ps, e) && i < |ps|
    ensures |ps'| == |ps|
    ensures ps'[i].killed <==> if e == KillIt(i) then true
                               else if e.WaitIt? && e.r.Reaped? && e.r.child == i then false else ps[i].killed
  {
    hide HasZombie, HasKids;
  }

  /** A run in which no thread is ever reaped. */
  ghost predicate NoThreadReaped(run: seq<Table>, events: seq<Event>) {
    |run| == |events| + 1 && forall k :: 0 <= k < |events| ==> ReapsNoThread(run[k], events[k])
  }

  lemma {:induction false} WithoutClone(run: seq<Table>, events: seq<Event>, n: nat)
    requires IsRun(run, events, n) && (n == 1 || forall i :: 0 <= i < |events| ==> !events[i].Clone?)
    ensures NoThreadReaped(run, events)
  {
    forall k | 0 <= k < |events| ensures ReapsNoThread(run[k], events[k]) {
      assert Step(run[k], events[k], run[k + 1], 0);
      if n == 1 {
        AloneNeverWaits(run, events, k);
        RunKeepsFamily(run, events, n, k);
      } else {
        RunKeepsKids(run, events, n, k);
      }
    }
  }

  /** As long as no thread is reaped, an entry is marked killed exactly if kill has hit it since it was last reaped:
      a new process starts out unmarked. */
  lemma {:induction false} MarkedIffHit(run: seq<Table>, events: seq<Event>, n: nat, k: nat, i: nat)
    requires IsRun(run, events, n) && NoThreadReaped(run, events) && k < |run| && i < n
    ensures |run[k]| == n && (run[k][i].killed <==> i in Hit(events, k))
  {
    hide Step, ReapsNoThread;
    if k > 0 {
      MarkedIffHit(run, events, n, k - 1, i);
      assert Step(run[k - 1], events[k - 1], run[k - 1 + 1], 0) && ReapsNoThread(run[k - 1], events[k - 1]);
      StepMarks(run[k - 1], events[k - 1], run[k], 0, i);
    }
  }

  lemma KilledThreadIsReaped(n: nat) returns (run: seq<Table>, events: seq<Event>)
    requires n >= 2
    ensures IsRun(run, events, n) && Numbered(events) && 1 !in Hit(events, |events|)
    ensures |events| > 0 && events[|events| - 1] == WaitIt(0, Reaped(1, 2))
    ensures run[|events|] == ThreadTable(n, Proc(Unused, 2, Some(0), NoChan, true, true))
  {
    hide Boot;
    BootTable(n);
    run, events := ThreadExits(n);
    var thread := Proc(Zombie, 2, Some(0), NoChan, true, true);
    assert ThreadTable(n, thread)[1] == thread;
    run, events := Extend(run, events, n, KillIt(1), ThreadTable(n, thread));
    run, events := Extend(run, events, n, WaitIt(0, Reaped(1, 2)), ThreadTable(n, thread.(state := Unused)));
    assert LastPid(events, 0) == LastPid(events, 1) == 1;
  }

  /** An unused entry that is marked though kill has not hit it since it was reaped. */
  ghost predicate InheritsMark(run: seq<Table>, events: seq<Event>, threads: bool, n: nat, i: nat) {
    && IsRun(run, events, n) && (threads || forall k :: 0 <= k < |events| ==> !events[k].Clone?)
    && i < |run[|events|]| && run[|events|][i].state == Unused && run[|events|][i].killed
    && i !in Hit(events, |events|)
  }

  ghost predicate SomeRunInheritsMark(threads: bool, n: nat) {
    exists run: seq<Table>, events: seq<Event>, i: nat :: InheritsMark(run, events, threads, n, i)
  }

  /** wait leaves the mark of a thread it reaps: the next process in the entry can start out killed, exactly when
      there are threads. */
  lemma InheritsMarkIff(threads: bool, n: nat)
    ensures SomeRunInheritsMark(threads, n) <==> threads && n >= 2
  {
    if threads && n >= 2 {
      var run, events := KilledThreadIsReaped(n);
      var t := ThreadTable(n, Proc(Unused, 2, Some(0), NoChan, true, true));
      assert run[|events|] == t && t[1].killed;
      assert InheritsMark(run, events, threads, n, 1);
    } else if SomeRunInheritsMark(threads, n) {
      var run: seq<Table>, events: seq<Event>, i: nat :| InheritsMark(run, events, threads, n, i);
      WithoutClone(run, events, n);
      MarkedIffHit(run, events, n, |events|, 0);
      MarkedIffHit(run, events, n, |events|, i);
    }
  }

  /** pids in the table: the latest is `top`, entries in use have one, and no two entries have the same. */
  ghost predicate PidsOk(ps: Table, top: int) {
    && (forall i :: 0 <= i < |ps| ==> 0 <= ps[i].pid <= top && (ps[i].state != Unused ==> ps[i].pid > 0))
    && forall i, j :: 0 <= i < j < |ps| && ps[i].pid == ps[j].pid ==> ps[i].pid == 0
  }

  lemma StepPids(ps: Table, e: Event, ps': Table, init: nat, top: int)
    requires PidsOk(ps, top) && top > 0 && Step(ps, e, ps', init) && (e.Allocate? ==> e.pid == top + 1)
    ensures PidsOk(ps', if e.Allocate? then e.pid else top)
  {
    hide Step;
    SameLength(ps, e, ps', init);
    forall i | 0 <= i < |ps|
      ensures if e.Allocate? && e.slot == i then ps'[i].pid == e.pid else NoNewPid(ps[i], ps'[i])
    {
      StepPid(ps, e, ps', init, i);
    }
  }

  /** An entry keeps its pid as long as it is in use, and may then lose it. */
  predicate NoNewPid(p: Proc, p': Proc) {
    || (p'.pid == p.pid && (p'.state != Unused ==> p.state != Unused))
    || (p'.pid == 0 && p'.state == Unused)
  }

  lemma SameLength(ps: Table, e: Event, ps': Table, init: nat)
    requires Step(ps, e, ps', init)
    ensures |ps'| == |ps|
  {
    hide HasZombie, HasKids;
  }

  lemma StepPid(ps: Table, e: Event, ps': Table, init: nat, i: nat)
    requires Step(ps, e, ps', init) && i < |ps|
    ensures |ps'| == |ps|
    ensures if e.Allocate? && e.slot == i then ps'[i].pid == e.pid else NoNewPid(ps[i], ps'[i])
  {
    hide HasZombie, HasKids;
  }

  lemma {:induction false} RunPids(run: seq<Table>, events: seq<Event>, n: nat, k: nat)
    requires IsRun(run, events, n) && Numbered(events) && k < |run|
    ensures LastPid(events, k) > 0 && PidsOk(run[k], LastPid(events, k))
  {
    hide Step, PidsOk;
    if k > 0 {
      RunPids(run, events, n, k - 1);
      assert Step(run[k - 1], events[k - 1], run[k - 1 + 1], 0);
      StepPids(run[k - 1], events[k - 1], run[k], 0, LastPid(events, k - 1));
    } else {
      BootPids(n);
    }
  }

  lemma BootPids(n: nat)
    ensures PidsOk(Boot(n), 1)
  {
  }

  /** In every run no two entries have the same pid, so kill hits the process that is meant. */
  lemma PidsUnique(run: seq<Table>, events: seq<Event>, n: nat, k: nat, i: nat, j: nat)
    requires IsRun(run, events, n) && Numbered(events) && k < |run| && i < |run[k]| && j < |run[k]| && i != j
    ensures run[k][i].pid == run[k][j].pid ==> run[k][i].state == run[k][j].state == Unused
  {
    RunPids(run, events, n, k);
  }

  /** Nobody has this pid, and nobody will get it. */
  ghost predicate Gone(ps: Table, pid: int, top: int) {
    0 < pid <= top && forall i :: 0 <= i < |ps| ==> ps[i].pid != pid
  }

  lemma StepKeepsGone(ps: Table, e: Event, ps': Table, init: nat, pid: int, top: int)
    requires Gone(ps, pid, top) && Step(ps, e, ps', init) && (e.Allocate? ==> e.pid == top + 1)
    ensures Gone(ps', pid, if e.Allocate? then e.pid else top)
  {
    hide HasZombie, HasKids;
  }

  /** As long as no thread is reaped, no entry ever has the pid of a reaped process again: a kill with that pid
      fails. */
  lemma {:induction false} PidGone(run: seq<Table>, events: seq<Event>, n: nat, k: nat, m: nat)
    requires IsRun(run, events, n) && Numbered(events) && NoThreadReaped(run, events) && k < m < |run|
    requires events[k].WaitIt? && events[k].r.Reaped?
    ensures Gone(run[m], events[k].r.pid, LastPid(events, m))
  {
    hide Gone, Step, ReapsNoThread;
    assert Step(run[m - 1], events[m - 1], run[m - 1 + 1], 0);
    if m == k + 1 {
      RunPids(run, events, n, k);
      assert ReapsNoThread(run[k], events[k]);
      ReapedIsGone(run[k], events[k], run[k + 1], LastPid(events, k));
    } else {
      PidGone(run, events, n, k, m - 1);
      StepKeepsGone(run[m - 1], events[m - 1], run[m], 0, events[k].r.pid, LastPid(events, m - 1));
    }
  }

  lemma ReapedIsGone(ps: Table, e: Event, ps': Table, top: int)
    requires PidsOk(ps, top) && Step(ps, e, ps', 0) && e.WaitIt? && e.r.Reaped? && ReapsNoThread(ps, e)
    ensures Gone(ps', e.r.pid, top)
  {
  }

  /** Entry i has the pid of a process that was reaped in event k. */
  ghost predicate KeepsPid(run: seq<Table>, events: seq<Event>, threads: bool, n: nat, k: nat, i: nat) {
    && IsRun(run, events, n) && (threads || forall m :: 0 <= m < |events| ==> !events[m].Clone?) && Numbered(events)
    && k < |events| && events[k].WaitIt? && events[k].r.Reaped?
    && i < |run[|events|]| && run[|events|][i].pid == events[k].r.pid
  }

  ghost predicate SomeRunKeepsPid(threads: bool, n: nat) {
    exists run: seq<Table>, events: seq<Event>, k: nat, i: nat :: KeepsPid(run, events, threads, n, k, i)
  }

  /** wait leaves a reaped thread its pid: a kill can hit an unused entry by it exactly when there are threads. */
  lemma KeepsPidIff(threads: bool, n: nat)
    ensures SomeRunKeepsPid(threads, n) <==> threads && n >= 2
  {
    if threads && n >= 2 {
      var run, events := KilledThreadIsReaped(n);
      var t := ThreadTable(n, Proc(Unused, 2, Some(0), NoChan, true, true));
      assert run[|events|] == t && t[1].pid == 2;
      assert KeepsPid(run, events, threads, n, |events| - 1, 1);
    } else if SomeRunKeepsPid(threads, n) {
      var run: seq<Table>, events: seq<Event>, k: nat, i: nat :| KeepsPid(run, events, threads, n, k, i);
      WithoutClone(run, events, n);
      PidGone(run, events, n, k, |events|);
    }
  }

  // ----- a process in wait has somebody to wait for

  /** Without threads, only entries in use have a parent. */
  ghost predicate ParentsInUse(ps: Table) {
    forall c :: 0 <= c < |ps| ==> !ps[c].thread && (ps[c].parent.Some? ==> ps[c].state !in {Unused, Embryo})
  }

  ghost predicate WaitersHaveKids(ps: Table) {
    forall w :: 0 <= w < |ps| && InWait(ps, w) ==> HasKids(ps, w)
  }

  lemma StepKeepsParents(ps: Table, e: Event, ps': Table, init: nat)
    requires ParentsInUse(ps) && Step(ps, e, ps', init) && !e.Clone?
    ensures ParentsInUse(ps')
  {
  }

  /** Nobody else's step takes the last child of a process in wait. */
  lemma StepKeepsKids(ps: Table, e: Event, ps': Table, init: nat)
    requires ParentsInUse(ps) && WaitersHaveKids(ps) && Step(ps, e, ps', init) && !e.Clone?
    ensures WaitersHaveKids(ps')
  {
    forall w | 0 <= w < |ps'| && InWait(ps', w) ensures HasKids(ps', w) {
      if InWait(ps, w) {
        var c :| 0 <= c < |ps| && ps[c].parent == Some(w);
        assert ps'[c].parent == Some(w);
      } else {
        assert e == WaitIt(w, Asleep);
        var c :| 0 <= c < |ps| && ps[c].parent == Some(w);
        assert ps'[c].parent == Some(w);
      }
    }
  }

  lemma {:induction false} RunKeepsKids(run: seq<Table>, events: seq<Event>, n: nat, k: nat)
    requires IsRun(run, events, n) && k < |run| && forall i :: 0 <= i < |events| ==> !events[i].Clone?
    ensures ParentsInUse(run[k]) && WaitersHaveKids(run[k])
  {
    if k > 0 {
      RunKeepsKids(run, events, n, k - 1);
      StepKeepsParents(run[k - 1], events[k - 1], run[k], 0);
      StepKeepsKids(run[k - 1], events[k - 1], run[k], 0);
    }
  }

  /** In every run without clone, a process asleep in wait has a child that has yet to exit. */
  lemma WaiterHasLiveChild(run: seq<Table>, events: seq<Event>, n: nat, k: nat, w: nat) returns (c: nat)
    requires IsRun(run, events, n) && k < |run| && (forall i :: 0 <= i < |events| ==> !events[i].Clone?)
    requires InWait(run[k], w)
    ensures c < |run[k]| && run[k][c].parent == Some(w) && Live(run[k][c])
  {
    BootKeeps(n);
    WaitMissesNone(run, events, 0, k);
    RunKeepsKids(run, events, n, k);
    c :| 0 <= c < |run[k]| && run[k][c].parent == Some(w);
  }

  /** A process asleep in wait while every other entry of the table is unused. */
  ghost predicate WaitsForNobody(ps: Table, w: nat) {
    InWait(ps, w) && forall i :: 0 <= i < |ps| && i != w ==> ps[i].state == Unused
  }

  ghost predicate SomeRunWaitsForNobody(threads: bool, n: nat) {
    exists run: seq<Table>, events: seq<Event>, w: nat ::
      && IsRun(run, events, n) && (threads || forall i :: 0 <= i < |events| ==> !events[i].Clone?)
      && WaitsForNobody(run[|events|], w)
  }

  /** The first process clones a thread, which exits. */
  lemma ThreadExits(n: nat) returns (run: seq<Table>, events: seq<Event>)
    requires n >= 2
    ensures IsRun(run, events, n) && run[|events|] == ThreadTable(n, Proc(Zombie, 2, Some(0), NoChan, false, true))
    ensures events == [Dispatch(0), Allocate(1, 2), Clone(1, 0), Dispatch(1), ExitIt(1)]
  {
    hide Boot;
    var thread := Proc(Runnable, 2, Some(0), NoChan, false, true);
    BootTable(n);
    run, events := [Boot(n)], [];
    run, events := Extend(run, events, n, Dispatch(0), ThreadTable(n, Boot(n)[1]));
    run, events := Extend(run, events, n, Allocate(1, 2), ThreadTable(n, Boot(n)[1].(state := Embryo, pid := 2)));
    run, events := Extend(run, events, n, Clone(1, 0), ThreadTable(n, thread));
    run, events := Extend(run, events, n, Dispatch(1), ThreadTable(n, thread.(state := Running)));
    run, events := Extend(run, events, n, ExitIt(1), ThreadTable(n, thread.(state := Zombie)));
  }

  /** The table at boot, with the first process running and something else in the second entry. */
  ghost function ThreadTable(n: nat, p: Proc): Table
    requires n >= 2
  {
    Boot(n)[0 := Boot(n)[0].(state := Running)][1 := p]
  }

  lemma BootTable(n: nat)
    ensures |Boot(n)| == n
    ensures forall i :: 0 <= i < n ==>
              var first := i == 0;
              Boot(n)[i] == Proc(if first then Runnable else Unused, if first then 1 else 0, None, NoChan, false, false)
  {
  }

  lemma Extend(run: seq<Table>, events: seq<Event>, n: nat, e: Event, t: Table)
    returns (run': seq<Table>, events': seq<Event>)
    requires IsRun(run, events, n) && Step(run[|events|], e, t, 0)
    ensures IsRun(run', events', n) && run'[|events'|] == t && events' == events + [e] && run' == run + [t]
  {
    hide Step, Boot;
    run', events' := run + [t], events + [e];
  }

  /** It is reaped, and wait is called once more: the unused entry still names its parent. */
  lemma ReapedThreadIsWaitedFor(n: nat) returns (run: seq<Table>, events: seq<Event>)
    requires n >= 2
    ensures IsRun(run, events, n) && WaitsForNobody(run[|events|], 0)
  {
    hide Boot;
    var thread := Proc(Zombie, 2, Some(0), NoChan, false, true);
    BootTable(n);
    run, events := ThreadExits(n);
    assert ThreadTable(n, thread)[1] == thread;
    run, events := Extend(run, events, n, WaitIt(0, Reaped(1, 2)), ThreadTable(n, thread.(state := Unused)));
    var t := ThreadTable(n, thread.(state := Unused));
    assert t[1].parent == Some(0);
    run, events := Extend(run, events, n, WaitIt(0, Asleep), t[0 := t[0].(state := Sleeping, chan := OfProc(0))]);
  }

  /** With one entry there is nobody to wait for. */
  lemma {:induction false} AloneNeverWaits(run: seq<Table>, events: seq<Event>, k: nat)
    requires IsRun(run, events, 1) && k < |run|
    ensures |run[k]| == 1 && !InWait(run[k], 0)
  {
    if k > 0 {
      AloneNeverWaits(run, events, k - 1);
      BootKeeps(1);
      WaitMissesNone(run, events, 0, k - 1);
      assert Step(run[k - 1], events[k - 1], run[k], 0);
    }
  }

  /** A process can be left waiting for nobody exactly when there are threads. */
  lemma WaitsForNobodyIff(threads: bool, n: nat)
    ensures SomeRunWaitsForNobody(threads, n) <==> threads && n >= 2
  {
    if threads && n >= 2 {
      var run, events := ReapedThreadIsWaitedFor(n);
      assert IsRun(run, events, n) && WaitsForNobody(run[|events|], 0);
    } else if SomeRunWaitsForNobody(threads, n) {
      var run: seq<Table>, events: seq<Event>, w: nat :|
        && IsRun(run, events, n) && (threads || forall i :: 0 <= i < |events| ==> !events[i].Clone?)
        && WaitsForNobody(run[|events|], w);
      if threads {
        AloneNeverWaits(run, events, |events|);
      } else {
        BootKeeps(n);
        WaitMissesNone(run, events, 0, |events|);
        var c := WaiterHasLiveChild(run, events, n, |events|, w);
      }
    }
  }
}
