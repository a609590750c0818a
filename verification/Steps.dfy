/** What an operation does to the blocks: each bread with what it saw, each log_write with what it stored. */
module Steps {
  import opened Blocks
  import Counting

  datatype Step = Bread(n: nat, data: Block) | LogWrite(n: nat, data: Block)

  /** The disk after these steps. */
  function Effect(base: Disk, steps: seq<Step>): (d: Disk)
    ensures |d| == |base|
  {
    if steps == [] then base
    else
      var d, s := Effect(base, steps[..|steps| - 1]), steps[|steps| - 1];
      if s.LogWrite? && s.n < |d| then d[s.n := s.data] else d
  }

  /** The blocks they stored. */
  ghost function Writes(steps: seq<Step>): set<nat> {
    set k | 0 <= k < |steps| && steps[k].LogWrite? :: steps[k].n
  }

  /** Step k touches a block from `lo` on, and a bread sees what the steps before it have left there. */
  ghost predicate StepOk(lo: nat, base: Disk, steps: seq<Step>, k: nat)
    requires k < |steps|
  {
    && lo <= steps[k].n < |base|
    && (steps[k].Bread? ==> Effect(base, steps[..k])[steps[k].n] == steps[k].data)
  }

  /** The steps lead from `base` to `disk`, storing the blocks in `logged` and no others. */
  ghost predicate Ran(lo: nat, base: Disk, steps: seq<Step>, disk: Disk, logged: set<nat>) {
    && Effect(base, steps) == disk && Writes(steps) == logged
    && forall k :: 0 <= k < |steps| ==> StepOk(lo, base, steps, k)
  }

  lemma RanNothing(lo: nat, base: Disk)
    ensures Ran(lo, base, [], base, {})
  {
    assert Writes([]) == {};
  }

  lemma OneMore(lo: nat, base: Disk, steps: seq<Step>, s: Step)
    requires forall k :: 0 <= k < |steps| ==> StepOk(lo, base, steps, k)
    requires lo <= s.n < |base| && (s.Bread? ==> Effect(base, steps)[s.n] == s.data)
    ensures forall k :: 0 <= k < |steps + [s]| ==> StepOk(lo, base, steps + [s], k)
  {
    hide Effect;
    forall k | 0 <= k < |steps + [s]| ensures StepOk(lo, base, steps + [s], k) {
      assert (steps + [s])[..k] == steps[..k];
      assert k < |steps| ==> StepOk(lo, base, steps, k);
      assert steps[..|steps|] == steps;
    }
  }

  lemma WritesMore(steps: seq<Step>, s: Step)
    ensures Writes(steps + [s]) == Writes(steps) + if s.LogWrite? then {s.n} else {}
  {
    forall n ensures n in Writes(steps + [s]) <==> n in Writes(steps) + if s.LogWrite? then {s.n} else {} {
      if n in Writes(steps) {
        var k :| 0 <= k < |steps| && steps[k].LogWrite? && steps[k].n == n;
        assert (steps + [s])[k] == steps[k];
      }
      assert (steps + [s])[|steps|] == s;
    }
  }

  lemma EffectMore(base: Disk, steps: seq<Step>, s: Step)
    requires s.n < |base|
    ensures Effect(base, steps + [s]) == if s.LogWrite? then Effect(base, steps)[s.n := s.data] else Effect(base, steps)
  {
    assert (steps + [s])[..|steps|] == steps;
  }

  lemma RanBread(lo: nat, base: Disk, steps: seq<Step>, disk: Disk, logged: set<nat>, n: nat)
    requires Ran(lo, base, steps, disk, logged) && lo <= n < |disk|
    ensures Ran(lo, base, steps + [Bread(n, disk[n])], disk, logged)
  {
    hide Effect, Writes, StepOk;
    OneMore(lo, base, steps, Bread(n, disk[n]));
    WritesMore(steps, Bread(n, disk[n]));
    EffectMore(base, steps, Bread(n, disk[n]));
  }

  lemma RanLogWrite(lo: nat, base: Disk, steps: seq<Step>, disk: Disk, logged: set<nat>, n: nat, data: Block)
    requires Ran(lo, base, steps, disk, logged) && lo <= n < |disk|
    ensures Ran(lo, base, steps + [LogWrite(n, data)], disk[n := data], logged + {n})
  {
    hide Effect, Writes, StepOk;
    OneMore(lo, base, steps, LogWrite(n, data));
    WritesMore(steps, LogWrite(n, data));
    EffectMore(base, steps, LogWrite(n, data));
  }

  /** Each log_write finds fewer than `limit` blocks in the log, its own among them or not. */
  ghost predicate Room(steps: seq<Step>, limit: nat) {
    forall k :: 0 <= k < |steps| && steps[k].LogWrite? ==> |Writes(steps[..k])| < limit
  }

  lemma WritesBefore(steps: seq<Step>, k: nat)
    requires k <= |steps|
    ensures Writes(steps[..k]) <= Writes(steps)
  {
  }

  /** All steps but the last store blocks of a small set. */
  lemma RoomForAll(steps: seq<Step>, few: set<nat>, limit: nat)
    requires (steps == [] || Writes(steps[..|steps| - 1]) <= few) && |few| < limit
    ensures Room(steps, limit)
  {
    hide Writes;
    forall k | 0 <= k < |steps| && steps[k].LogWrite? ensures |Writes(steps[..k])| < limit {
      WritesBefore(steps[..|steps| - 1], k);
      assert steps[..|steps| - 1][..k] == steps[..k];
      Counting.SubsetIsNoLarger(Writes(steps[..k]), few);
    }
  }
}
