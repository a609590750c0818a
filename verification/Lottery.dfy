/** The lottery scheduler's draw. */
module Lottery {
  import opened Wrappers

  datatype Entrant = Entrant(runnable: bool, tickets: nat)

  /** The tickets of the runnable processes among the first k. */
  function Sum(ps: seq<Entrant>, k: nat): nat
    requires k <= |ps|
  {
    if k == 0 then 0 else Sum(ps, k - 1) + if ps[k - 1].runnable then ps[k - 1].tickets else 0
  }

  /** k is the first runnable process whose tickets, with those before it, reach the winner. */
  ghost predicate Picked(ps: seq<Entrant>, winner: nat, k: nat) {
    && k < |ps| && ps[k].runnable && winner <= Sum(ps, k + 1)
    && forall j :: 0 <= j < k && ps[j].runnable ==> Sum(ps, j + 1) < winner
  }

  ghost predicate IsFirst(ps: seq<Entrant>, k: nat) {
    k < |ps| && ps[k].runnable && forall j :: 0 <= j < k ==> !ps[j].runnable
  }

  method TotalTickets(ps: seq<Entrant>) returns (total: nat)
    ensures total == Sum(ps, |ps|)
  {
    total := 0;
    for i := 0 to |ps|
      invariant total == Sum(ps, i)
    {
      if ps[i].runnable {
        total := total + ps[i].tickets;
      }
    }
  }

  /** The second loop: skip the bins below the winner. */
  method FindWinner(ps: seq<Entrant>, winner: nat) returns (k: Option<nat>)
    ensures k.Some? ==> Picked(ps, winner, k.value)
    ensures k.None? ==> forall j :: 0 <= j < |ps| ==> !Picked(ps, winner, j)
  {
    var bin := 0;
    for i := 0 to |ps|
      invariant bin == Sum(ps, i)
      invariant forall j :: 0 <= j < i && ps[j].runnable ==> Sum(ps, j + 1) < winner
    {
      if ps[i].runnable {
        if bin + ps[i].tickets < winner {
          bin := bin + ps[i].tickets;
        } else {
          return Some(i);
        }
      }
    }
    return None;
  }

  /** One draw, with the random number reduced to 0, ..., total. */
  method Draw(ps: seq<Entrant>, random: nat) returns (k: Option<nat>)
    ensures k.Some? <==> exists j :: 0 <= j < |ps| && ps[j].runnable
    ensures k.Some? ==> Picked(ps, random % (Sum(ps, |ps|) + 1), k.value)
  {
    var total := TotalTickets(ps);
    var winner := random % (total + 1);
    k := FindWinner(ps, winner);
    if k.None? && exists j :: 0 <= j < |ps| && ps[j].runnable {
      SomeoneWins(ps, winner);
    }
  }

  lemma {:induction false} SumGrows(ps: seq<Entrant>, j: nat, k: nat)
    requires j <= k <= |ps|
    ensures Sum(ps, j) <= Sum(ps, k)
  {
    if j < k {
      SumGrows(ps, j, k - 1);
    }
  }

  /** Every winning number up to the total is someone's. */
  lemma SomeoneWins(ps: seq<Entrant>, winner: nat)
    requires winner <= Sum(ps, |ps|) && exists j :: 0 <= j < |ps| && ps[j].runnable
    ensures exists k :: Picked(ps, winner, k)
  {
    var k := 0;
    while !(ps[k].runnable && winner <= Sum(ps, k + 1))
      invariant 0 <= k < |ps| && forall j :: 0 <= j < k && ps[j].runnable ==> Sum(ps, j + 1) < winner
      decreases |ps| - k
    {
      if k + 1 == |ps| {
        var j := BeforeReaches(ps, |ps|);
      }
      k := k + 1;
    }
    assert Picked(ps, winner, k);
  }

  lemma OnlyOneWins(ps: seq<Entrant>, winner: nat, j: nat, k: nat)
    requires Picked(ps, winner, j) && Picked(ps, winner, k)
    ensures j == k
  {
  }

  /** The numbers that pick k, as an interval. */
  lemma PickedIff(ps: seq<Entrant>, winner: nat, k: nat)
    requires k < |ps| && ps[k].runnable
    ensures Picked(ps, winner, k) <==> (IsFirst(ps, k) || Sum(ps, k) < winner) && winner <= Sum(ps, k + 1)
  {
    if !IsFirst(ps, k) {
      var j := BeforeReaches(ps, k);
      if Sum(ps, k) < winner {
        forall j | 0 <= j < k && ps[j].runnable ensures Sum(ps, j + 1) < winner {
          SumGrows(ps, j + 1, k);
        }
      }
    }
  }

  /** The last runnable process before k has all the tickets before k behind it. */
  lemma {:induction false} BeforeReaches(ps: seq<Entrant>, k: nat) returns (j: nat)
    requires k <= |ps| && exists i :: 0 <= i < k && ps[i].runnable
    ensures j < k && ps[j].runnable && Sum(ps, j + 1) == Sum(ps, k)
  {
    if ps[k - 1].runnable {
      j := k - 1;
    } else {
      j := BeforeReaches(ps, k - 1);
    }
  }

  /** lo, ..., lo+n-1. */
  ghost function Interval(lo: nat, n: nat): (s: set<nat>)
    ensures |s| == n && forall w: nat :: w in s <==> lo <= w < lo + n
  {
    if n == 0 then {} else Interval(lo, n - 1) + {lo + n - 1}
  }

  ghost function Winners(ps: seq<Entrant>, k: nat): set<nat> {
    set w: nat | w in Interval(0, Sum(ps, |ps|) + 1) && Picked(ps, w, k)
  }

  /** Of the numbers 0, ..., total, a runnable process is picked by as many as it has tickets, and the
      first runnable one by one more. */
  lemma LotteryShares(ps: seq<Entrant>, k: nat)
    requires k < |ps| && ps[k].runnable
    ensures |Winners(ps, k)| == ps[k].tickets + if IsFirst(ps, k) then 1 else 0
  {
    hide Picked, IsFirst, Interval;
    SumGrows(ps, k + 1, |ps|);
    assert Sum(ps, k + 1) == Sum(ps, k) + ps[k].tickets;
    hide Sum;
    if IsFirst(ps, k) {
      FirstStartsAtZero(ps, k);
    }
    var s := if IsFirst(ps, k) then Interval(0, ps[k].tickets + 1) else Interval(Sum(ps, k) + 1, ps[k].tickets);
    forall w: nat ensures w in Winners(ps, k) <==> w in s {
      PickedIff(ps, w, k);
    }
    assert Winners(ps, k) == s;
  }

  lemma FirstStartsAtZero(ps: seq<Entrant>, k: nat)
    requires IsFirst(ps, k)
    ensures Sum(ps, k) == 0
  {
    FirstHasNoneBefore(ps, k);
  }

  lemma {:induction false} FirstHasNoneBefore(ps: seq<Entrant>, k: nat)
    requires k < |ps| && forall j :: 0 <= j < k ==> !ps[j].runnable
    ensures Sum(ps, k) == 0
  {
    if k > 0 {
      FirstHasNoneBefore(ps, k - 1);
    }
  }
}
