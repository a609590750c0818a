/** Pipes: the ring buffer with its wrapping counters, what each hold of the pipe's lock does, and the
    sleeping readers and writers of any number of processes. */
module Pipe {
  import opened Params

  const PIPESIZE: nat := 512

  /** How a hold of the lock in piperead or pipewrite ends. */
  datatype Outcome = Finished | Failed | Slept

  function Least(a: nat, b: nat): nat {
    if a < b then a else b
  }

  /** pipewrite with `left` bytes to go and `count` in the buffer: it fills up the room there is. */
  function WriteOutcome(count: nat, left: nat, readopen: bool, killed: bool): Outcome {
    if count + left <= PIPESIZE then Finished else if !readopen || killed then Failed else Slept
  }

  function ReadOutcome(count: nat, writeopen: bool, killed: bool): Outcome {
    if count > 0 || !writeopen then Finished else if killed then Failed else Slept
  }

  class Buffer {
    const data: array<Byte>
    var nread: Uint
    var nwrite: Uint
    var readopen: bool
    var writeopen: bool
    ghost var written: seq<Byte>     // all bytes ever written,
    ghost var taken: seq<Byte>       // and all ever read

    /** What has been read is a prefix of what has been written; the rest is in the ring. */
    ghost predicate Valid()
      reads this, data
    {
      && data.Length == PIPESIZE && taken <= written && Count() <= PIPESIZE
      && nread == |taken| % WORD_MOD && nwrite == |written| % WORD_MOD
      && forall k :: |taken| <= k < |written| ==> data[k % PIPESIZE] == written[k]
    }

    ghost function Count(): int
      reads this
    {
      |written| - |taken|
    }

    constructor ()
      ensures Valid() && fresh(data) && written == taken == [] && readopen && writeopen
    {
      data := new Byte[PIPESIZE](_ => 0);
      nread, nwrite, readopen, writeopen := 0, 0, true, true;
      written, taken := [], [];
    }

    /** The counters tell full and empty apart although they wrap around. */
    lemma CountersTell()
      requires Valid()
      ensures nwrite == (nread + PIPESIZE) % WORD_MOD <==> Count() == PIPESIZE
      ensures nread == nwrite <==> Count() == 0
    {
      Congruent(|taken|, |written|);
    }

    /** pipewrite, from taking the lock with i bytes done to releasing it or going to sleep. */
    method WriteSome(addr: seq<Byte>, i: nat, killed: bool) returns (i': nat, out: Outcome)
      requires Valid() && i <= |addr|
      modifies this`nwrite, this`written, data
      ensures i' == i + Least(|addr| - i, PIPESIZE - old(Count()))
      ensures Valid() && written == old(written) + addr[i..i']
      ensures out == WriteOutcome(old(Count()), |addr| - i, readopen, killed)
      ensures (out == Finished <==> i' == |addr|) && (out != Finished ==> Count() == PIPESIZE)
      ensures (out == Failed ==> !readopen || killed) && (out == Slept ==> readopen && !killed)
    {
      i' := i;
      while i' < |addr|
        invariant i <= i' <= |addr| && Valid() && written == old(written) + addr[i..i'] && taken == old(taken)
      {
        CountersTell();
        if nwrite == (nread + PIPESIZE) % WORD_MOD {
          if !readopen || killed {
            return i', Failed;
          }
          return i', Slept;
        }
        Push(addr[i']);
        i' := i' + 1;
      }
      return i', Finished;
    }

    method Push(b: Byte)
      requires Valid() && Count() < PIPESIZE
      modifies this`nwrite, this`written, data
      ensures Valid() && written == old(written) + [b]
    {
      SameSlot(|written|);
      forall k | |taken| <= k < |written| ensures k % PIPESIZE != |written| % PIPESIZE {
        SlotsDiffer(k, |written|);
      }
      data[nwrite % PIPESIZE] := b;
      nwrite := (nwrite + 1) % WORD_MOD;
      written := written + [b];
    }

    /** piperead, from taking the lock to releasing it or going to sleep. */
    method ReadSome(n: nat, killed: bool) returns (bytes: seq<Byte>, out: Outcome)
      requires Valid()
      modifies this`nread, this`taken
      ensures Valid() && taken == old(taken) + bytes && out == ReadOutcome(old(Count()), writeopen, killed)
      ensures |bytes| == if out == Finished then Least(n, old(Count())) else 0
      ensures out != Finished ==> old(Count()) == 0 && writeopen && (out == Failed <==> killed)
      ensures out == Finished && bytes == [] && n > 0 ==> old(Count()) == 0 && !writeopen
    {
      bytes := [];
      CountersTell();
      if nread == nwrite && writeopen {
        return [], if killed then Failed else Slept;
      }
      var i := 0;
      while i < n
        invariant 0 <= i <= n && i == |bytes| && Valid() && taken == old(taken) + bytes && written == old(written)
      {
        CountersTell();
        if nread == nwrite {
          break;
        }
        SameSlot(|taken|);
        var b := data[nread % PIPESIZE];
        nread := (nread + 1) % WORD_MOD;
        taken := taken + [b];
        bytes := bytes + [b];
        i := i + 1;
      }
      return bytes, Finished;
    }

    method Close(writable: bool)
      modifies this`readopen, this`writeopen
      ensures readopen == (old(readopen) && writable) && writeopen == (old(writeopen) && !writable)
    {
      if writable {
        writeopen := false;
      } else {
        readopen := false;
      }
    }
  }

  lemma Congruent(a: nat, b: nat)
    requires a <= b <= a + PIPESIZE
    ensures b % WORD_MOD == (a % WORD_MOD + PIPESIZE) % WORD_MOD <==> b == a + PIPESIZE
    ensures a % WORD_MOD == b % WORD_MOD <==> a == b
  {
  }

  lemma SameSlot(n: nat)
    ensures n % WORD_MOD % PIPESIZE == n % PIPESIZE && (n % WORD_MOD + 1) % WORD_MOD == (n + 1) % WORD_MOD
  {
  }

  lemma SlotsDiffer(k: nat, n: nat)
    requires k < n < k + PIPESIZE
    ensures k % PIPESIZE != n % PIPESIZE
  {
  }

  // ----- any number of processes

  /** What a process is doing with the pipe; an awake one is about to take the lock. */
  datatype Task = Idle | Writing(left: nat) | WriteAsleep(left: nat) | Reading(n: nat) | ReadAsleep(n: nat)

  datatype State = State(count: nat, readopen: bool, writeopen: bool, tasks: seq<Task>, killed: set<nat>)

  datatype Event =
    | BeginWrite(i: nat, n: nat)
    | BeginRead(i: nat, n: nat)
    | Go(i: nat)
    | CloseEnd(writable: bool)
    | Kill(i: nat)

  function ReadersWoken(tasks: seq<Task>): (r: seq<Task>)
    ensures |r| == |tasks|
    ensures forall j :: 0 <= j < |tasks| ==> r[j] == if tasks[j].ReadAsleep? then Reading(tasks[j].n) else tasks[j]
  {
    seq(|tasks|, j requires 0 <= j < |tasks| => if tasks[j].ReadAsleep? then Reading(tasks[j].n) else tasks[j])
  }

  function WritersWoken(tasks: seq<Task>): (r: seq<Task>)
    ensures |r| == |tasks|
    ensures forall j :: 0 <= j < |tasks| ==> r[j] == if tasks[j].WriteAsleep? then Writing(tasks[j].left) else tasks[j]
  {
    seq(|tasks|, j requires 0 <= j < |tasks| => if tasks[j].WriteAsleep? then Writing(tasks[j].left) else tasks[j])
  }

  /** A hold of the lock by process i in pipewrite. */
  function Write(s: State, i: nat): State
    requires i < |s.tasks| && s.tasks[i].Writing? && s.count <= PIPESIZE
  {
    var left := s.tasks[i].left;
    var m := Least(left, PIPESIZE - s.count);
    s.(count := s.count + m,
    tasks := match WriteOutcome(s.count, left, s.readopen, i in s.killed)
    case Finished => ReadersWoken(s.tasks)[i := Idle]
    case Failed => s.tasks[i := Idle]
    case Slept => ReadersWoken(s.tasks)[i := WriteAsleep(left - m)])
  }

  /** And in piperead. */
  function Read(s: State, i: nat): State
    requires i < |s.tasks| && s.tasks[i].Reading?
  {
    var n := s.tasks[i].n;
    match ReadOutcome(s.count, s.writeopen, i in s.killed)
    case Finished => s.(count := s.count - Least(n, s.count), tasks := WritersWoken(s.tasks)[i := Idle])
    case Failed => s.(tasks := s.tasks[i := Idle])
    case Slept => s.(tasks := s.tasks[i := ReadAsleep(n)])
  }

  predicate InRead(t: Task) {
    t.Reading? || t.ReadAsleep?
  }

  predicate InWrite(t: Task) {
    t.Writing? || t.WriteAsleep?
  }

  /** An end is closed only when no call is using it: the caller's descriptor keeps the file open. */
  ghost predicate Step(s: State, e: Event, t: State) {
    match e
    case BeginWrite(i, n) =>
      i < |s.tasks| && s.tasks[i].Idle? && s.writeopen && t == s.(tasks := s.tasks[i := Writing(n)])
    case BeginRead(i, n) =>
      i < |s.tasks| && s.tasks[i].Idle? && s.readopen && t == s.(tasks := s.tasks[i := Reading(n)])
    case Go(i) =>
      && i < |s.tasks|
      && ((s.tasks[i].Writing? && s.count <= PIPESIZE && t == Write(s, i)) || (s.tasks[i].Reading? && t == Read(s, i)))
    case CloseEnd(true) =>
      && (forall j :: 0 <= j < |s.tasks| ==> !InWrite(s.tasks[j]))
      && t == s.(writeopen := false, tasks := ReadersWoken(s.tasks))
    case CloseEnd(false) =>
      && (forall j :: 0 <= j < |s.tasks| ==> !InRead(s.tasks[j]))
      && t == s.(readopen := false, tasks := WritersWoken(s.tasks))
    case Kill(i) => i < |s.tasks| && t == s.(killed := s.killed + {i}, tasks := s.tasks[i := Awake(s.tasks[i])])
  }

  function Awake(t: Task): Task {
    match t
    case ReadAsleep(n) => Reading(n)
    case WriteAsleep(left) => Writing(left)
    case _ => t
  }

  /** A reader sleeps only on an empty pipe that may still be written, a writer only on a full one that
      may still be read. */
  ghost predicate SleepersRight(s: State) {
    && (forall j :: 0 <= j < |s.tasks| && s.tasks[j].ReadAsleep? ==> s.count == 0 && s.writeopen)
    && (forall j :: 0 <= j < |s.tasks| && s.tasks[j].WriteAsleep? ==> s.count == PIPESIZE && s.readopen)
  }

  ghost predicate EndsOpen(s: State) {
    && s.count <= PIPESIZE
    && (forall j :: 0 <= j < |s.tasks| && InRead(s.tasks[j]) ==> s.readopen)
    && (forall j :: 0 <= j < |s.tasks| && InWrite(s.tasks[j]) ==> s.writeopen)
  }

  lemma StepKeepsEnds(s: State, e: Event, t: State)
    requires EndsOpen(s) && Step(s, e, t)
    ensures EndsOpen(t)
  {
  }

  lemma StepKeepsSleepers(s: State, e: Event, t: State)
    requires EndsOpen(s) && SleepersRight(s) && Step(s, e, t) && (e.Go? ==> e.i !in s.killed)
    ensures SleepersRight(t)
  {
  }

  ghost predicate IsRun(run: seq<State>, events: seq<Event>) {
    && |run| == |events| + 1 && run[0].count == 0 && run[0].readopen && run[0].writeopen && run[0].killed == {}
    && (forall j :: 0 <= j < |run[0].tasks| ==> run[0].tasks[j] == Idle)
    && forall n :: 0 <= n < |events| ==> Step(run[n], events[n], run[n + 1])
  }

  /** In every run without kills, at every release of the lock, sleepers have a reason to sleep. */
  lemma {:induction false} SleepersAreRight(run: seq<State>, events: seq<Event>, n: nat)
    requires IsRun(run, events) && n < |run| && forall k :: 0 <= k < |events| ==> !events[k].Kill?
    ensures EndsOpen(run[n]) && SleepersRight(run[n]) && run[n].killed == {}
  {
    if n > 0 {
      SleepersAreRight(run, events, n - 1);
      StepKeepsEnds(run[n - 1], events[n - 1], run[n]);
      StepKeepsSleepers(run[n - 1], events[n - 1], run[n]);
    }
  }

  /** A killed process does not sleep. */
  ghost predicate KilledAwake(s: State) {
    forall j :: 0 <= j < |s.tasks| && j in s.killed ==> !s.tasks[j].ReadAsleep? && !s.tasks[j].WriteAsleep?
  }

  lemma NobodyKilled(s: State)
    requires s.killed == {}
    ensures KilledAwake(s)
  {
  }

  lemma StepKeepsAwake(s: State, e: Event, t: State)
    requires KilledAwake(s) && Step(s, e, t)
    ensures KilledAwake(t)
  {
    hide Least;
  }

  /** In every run, with kills, no killed process sleeps on the pipe. */
  lemma {:induction false} KilledNeverSleep(run: seq<State>, events: seq<Event>, n: nat)
    requires IsRun(run, events) && n < |run|
    ensures KilledAwake(run[n])
  {
    hide Step, KilledAwake;
    if n > 0 {
      KilledNeverSleep(run, events, n - 1);
      assert Step(run[n - 1], events[n - 1], run[n - 1 + 1]);
      StepKeepsAwake(run[n - 1], events[n - 1], run[n]);
    } else {
      NobodyKilled(run[0]);
    }
  }

  // ----- the buffer takes these steps

  ghost predicate Shows(b: Buffer, s: State)
    reads b, b.data
  {
    b.Valid() && b.Count() == s.count && b.readopen == s.readopen && b.writeopen == s.writeopen
  }

  /** A hold of the lock by process p, which has written `done` bytes of addr. */
  method WriteHold(b: Buffer, addr: seq<Byte>, done: nat, killed: bool, ghost s: State, ghost p: nat)
    returns (done': nat, out: Outcome)
    requires Shows(b, s) && done <= |addr| && p < |s.tasks| && s.tasks[p] == Writing(|addr| - done)
    requires killed == (p in s.killed)
    modifies b`nwrite, b`written, b.data
    ensures s.count <= PIPESIZE && Step(s, Go(p), Write(s, p)) && Shows(b, Write(s, p))
    ensures done <= done' <= |addr| && b.written == old(b.written) + addr[done..done']
    ensures Write(s, p).tasks[p] == if out == Slept then WriteAsleep(|addr| - done') else Idle
  {
    done', out := b.WriteSome(addr, done, killed);
  }

  /** And by process p that reads up to n bytes. */
  method ReadHold(b: Buffer, n: nat, killed: bool, ghost s: State, ghost p: nat)
    returns (bytes: seq<Byte>, out: Outcome)
    requires Shows(b, s) && p < |s.tasks| && s.tasks[p] == Reading(n) && killed == (p in s.killed)
    modifies b`nread, b`taken
    ensures Step(s, Go(p), Read(s, p)) && Shows(b, Read(s, p)) && b.taken == old(b.taken) + bytes
    ensures Read(s, p).tasks[p] == if out == Slept then ReadAsleep(n) else Idle
  {
    bytes, out := b.ReadSome(n, killed);
  }

  /** pipeclose of an end that nobody is using. */
  method CloseHold(b: Buffer, writable: bool, ghost s: State) returns (ghost t: State)
    requires Shows(b, s)
    requires forall j :: 0 <= j < |s.tasks| ==> if writable then !InWrite(s.tasks[j]) else !InRead(s.tasks[j])
    modifies b`readopen, b`writeopen
    ensures Step(s, CloseEnd(writable), t) && Shows(b, t)
  {
    b.Close(writable);
    t := if writable then s.(writeopen := false, tasks := ReadersWoken(s.tasks))
         else s.(readopen := false, tasks := WritersWoken(s.tasks));
  }

  /** A killed writer that fills the pipe returns without waking readers. Exactly then, if one sleeps, it
      goes on sleeping on a pipe that is not empty. */
  lemma KilledWriterIff(s: State, i: nat)
    requires EndsOpen(s) && SleepersRight(s) && i < |s.tasks| && s.tasks[i].Writing? && i in s.killed
    ensures SleepersRight(Write(s, i)) <==>
            !(s.count + s.tasks[i].left > PIPESIZE && exists j :: 0 <= j < |s.tasks| && s.tasks[j].ReadAsleep?)
  {
    var t := Write(s, i);
    if j :| 0 <= j < |s.tasks| && s.tasks[j].ReadAsleep? {
      assert s.count + s.tasks[i].left > PIPESIZE ==> t.tasks[j].ReadAsleep?;
    }
  }

  /** A run that gets there: a read sleeps on the empty pipe, and a writer of more bytes than the pipe holds
      is killed before it takes the lock. */
  lemma KilledWriterStrandsReader(n: nat) returns (run: seq<State>, events: seq<Event>)
    requires n > PIPESIZE
    ensures events == [BeginRead(1, 1), Go(1), BeginWrite(0, n), Kill(0), Go(0)] && IsRun(run, events)
    ensures !SleepersRight(run[5]) && run[5].count == PIPESIZE && run[5].tasks == [Idle, ReadAsleep(1)]
  {
    var start := State(0, true, true, [Idle, Idle], {});
    events := [BeginRead(1, 1), Go(1), BeginWrite(0, n), Kill(0), Go(0)];
    run := [start, start.(tasks := [Idle, Reading(1)]), start.(tasks := [Idle, ReadAsleep(1)]),
      start.(tasks := [Writing(n), ReadAsleep(1)]), start.(tasks := [Writing(n), ReadAsleep(1)], killed := {0}),
      State(PIPESIZE, true, true, [Idle, ReadAsleep(1)], {0})];
    assert Step(run[0], events[0], run[1]) && Step(run[1], events[1], run[2]);
    assert Step(run[2], events[2], run[3]) && Step(run[3], events[3], run[4]) && Step(run[4], events[4], run[5]);
    assert run[5].tasks[1].ReadAsleep?;
  }
}
