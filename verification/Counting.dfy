/** Cardinalities of finite sets of indices. */
module Counting {
  /** The indices 0, ..., n-1. */
  ghost function Below(n: nat): (s: set<nat>)
    ensures |s| == n && forall k: nat :: k in s <==> k < n
  {
    if n == 0 then {} else Below(n - 1) + {n - 1}
  }

  lemma {:induction false} SubsetIsNoLarger<T>(s: set<T>, t: set<T>)
    requires s <= t
    ensures |s| <= |t|
  {
    if s != {} {
      var x :| x in s;
      SubsetIsNoLarger(s - {x}, t - {x});
    }
  }

  ghost function Image<T>(f: map<T, nat>, s: set<T>): set<nat>
    requires s <= f.Keys
  {
    set x | x in s :: f[x]
  }

  lemma {:induction false} ImageIsNoLarger<T>(f: map<T, nat>, s: set<T>)
    requires s <= f.Keys
    ensures |Image(f, s)| <= |s|
  {
    if s != {} {
      var y :| y in s;
      ImageIsNoLarger(f, s - {y});
      assert Image(f, s) == Image(f, s - {y}) + {f[y]};
    }
  }

  lemma {:induction false} ImageOfInjection<T>(f: map<T, nat>, s: set<T>)
    requires s <= f.Keys && forall x, y :: x in s && y in s && f[x] == f[y] ==> x == y
    ensures |Image(f, s)| == |s|
  {
    if s != {} {
      var y :| y in s;
      ImageOfInjection(f, s - {y});
      assert Image(f, s) == Image(f, s - {y}) + {f[y]};
    }
  }

  /** A sequence without repetitions is as long as the set of its elements is large. */
  lemma {:induction false} DistinctLength<T>(q: seq<T>)
    requires forall i, j :: 0 <= i < j < |q| ==> q[i] != q[j]
    ensures |set x | x in q| == |q|
  {
    if q != [] {
      var init := q[..|q| - 1];
      DistinctLength(init);
      assert (set x | x in q) == (set x | x in init) + {q[|q| - 1]};
    }
  }
}
