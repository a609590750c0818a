/** The K&R free list as a value: a map from block address to size in header units, ringed by
    address. Addresses are bytes, a header is UNIT bytes, and the static header `base` lies below the heap. */
module FreeList {
  const UNIT: nat := 8

  type Blocks = map<nat, nat>

  function End(m: Blocks, a: nat): nat
    requires a in m
  {
    a + UNIT * m[a]
  }

  /** b follows a on the ring: the next higher block, or base after the highest. */
  ghost predicate Succ(base: nat, s: set<nat>, a: nat, b: nat) {
    && b in s
    && if a < b then forall c :: c in s ==> c <= a || b <= c
       else b == base && forall c :: c in s ==> c <= a
  }

  /** The pointers tie all free blocks into one ring, sorted by address with one descent, at base. */
  ghost predicate Ring(base: nat, s: set<nat>, ptr: map<nat, nat>) {
    base in s && forall a {:trigger Linked(base, s, ptr, a)} :: a in s ==> Linked(base, s, ptr, a)
  }

  ghost predicate Linked(base: nat, s: set<nat>, ptr: map<nat, nat>, a: nat) {
    a in ptr && base <= a && Succ(base, s, a, ptr[a])
  }

  /** k steps along the ring. */
  ghost function Walk(ptr: map<nat, nat>, a: nat, k: nat): nat {
    if k == 0 then a else var b := Walk(ptr, a, k - 1); if b in ptr then ptr[b] else b
  }

  /** Following the pointers from base comes past every free block. */
  lemma {:induction false} RingReaches(base: nat, s: set<nat>, ptr: map<nat, nat>, a: nat) returns (k: nat)
    requires Ring(base, s, ptr) && a in s
    ensures Walk(ptr, base, k) == a
    decreases a
  {
    if a == base {
      k := 0;
    } else {
      assert Linked(base, s, ptr, a);
      var below := set c | c in s && c < a;
      var b := Highest(below, base);
      k := RingReaches(base, s, ptr, b);
      k := k + 1;
      assert Linked(base, s, ptr, b);
      assert forall c :: c in s && c < a ==> c in below;
    }
  }

  lemma {:induction false} Highest(s: set<nat>, x: nat) returns (b: nat)
    requires x in s
    ensures b in s && forall c :: c in s ==> c <= b
    decreases |s|
  {
    b := x;
    if y :| y in s && y > x {
      b := Highest(s - {x}, y);
      assert forall c :: c in s ==> c == x || c in s - {x};
    }
  }

  /** No two blocks overlap. */
  ghost predicate Laid(m: Blocks) {
    forall a, b :: a in m && b in m && a < b ==> End(m, a) <= b
  }

  /** No two free blocks touch: the list is fully coalesced. */
  ghost predicate Coalesced(m: Blocks, s: set<nat>) {
    forall a, b :: a in s && b in s && a in m && a < b ==> End(m, a) < b
  }

  /** Blocks other than base have room for their header and lie between base and brk. */
  ghost predicate Placed(base: nat, m: Blocks, brk: nat) {
    forall a :: a in m && a != base ==> base + UNIT <= a && m[a] > 0 && End(m, a) <= brk
  }

  /** m holds the blocks of the heap below brk, s the free ones among them. */
  ghost predicate Arena(base: nat, m: Blocks, s: set<nat>, brk: nat) {
    && base in s && s <= m.Keys && m[base] == 0 && base + UNIT <= brk
    && Laid(m) && Placed(base, m, brk) && Coalesced(m, s)
  }

  // ----- the number of units

  ghost function Units(m: Blocks): nat {
    if m == map[] then 0 else var a :| a in m; m[a] + Units(m - {a})
  }

  lemma {:induction false} UnitsWithout(m: Blocks, a: nat)
    requires a in m
    ensures Units(m) == m[a] + Units(m - {a})
    decreases |m|
  {
    var b :| b in m && Units(m) == m[b] + Units(m - {b});
    if b != a {
      UnitsWithout(m - {b}, a);
      UnitsWithout(m - {a}, b);
      assert m - {b} - {a} == m - {a} - {b};
    }
  }

  lemma UnitsPut(m: Blocks, a: nat, n: nat)
    ensures a !in m ==> Units(m[a := n]) == Units(m) + n
    ensures a in m ==> Units(m[a := n]) == Units(m) - m[a] + n
  {
    UnitsWithout(m[a := n], a);
    if a in m {
      UnitsWithout(m, a);
      assert m[a := n] - {a} == m - {a};
    } else {
      assert m[a := n] - {a} == m;
    }
  }

  // ----- free

  /** p is the free block below bp, and no other free block lies between them. */
  ghost predicate Gap(s: set<nat>, p: nat, bp: nat) {
    p in s && p < bp && forall c :: c in s ==> c <= p || bp < c
  }

  lemma InsertRing(base: nat, s: set<nat>, ptr: map<nat, nat>, p: nat, bp: nat)
    requires Ring(base, s, ptr) && Gap(s, p, bp) && Linked(base, s, ptr, p)
    ensures Ring(base, s + {bp}, ptr[bp := ptr[p]][p := bp])
  {
    var s', ptr' := s + {bp}, ptr[bp := ptr[p]][p := bp];
    forall a | a in s' ensures Linked(base, s', ptr', a) {
      assert a in s ==> Linked(base, s, ptr, a);
    }
  }

  lemma RemoveRing(base: nat, s: set<nat>, ptr: map<nat, nat>, x: nat, q: nat)
    requires Ring(base, s, ptr) && x in s && q in s && q != base && Linked(base, s, ptr, x) && Linked(base, s, ptr, q)
    requires ptr[x] == q
    ensures x != q && Ring(base, s - {q}, ptr[x := ptr[q]])
  {
    var s', ptr' := s - {q}, ptr[x := ptr[q]];
    forall a | a in s' ensures Linked(base, s', ptr', a) {
      assert Linked(base, s, ptr, a);
    }
  }

  /** The block at b becomes part of the one at a. */
  function Merge(m: Blocks, a: nat, b: nat): Blocks
    requires a in m && b in m
  {
    (m - {b})[a := m[a] + m[b]]
  }

  lemma MergeEnds(m: Blocks, a: nat, b: nat, c: nat)
    requires a in m && b in m && a != b && End(m, a) == b && c in Merge(m, a, b)
    ensures c in m && c != b && End(Merge(m, a, b), c) == if c == a then End(m, b) else End(m, c)
  {
  }

  lemma MergeApart(m: Blocks, a: nat, b: nat)
    requires Laid(m) && a in m && b in m && a != b && End(m, a) == b
    ensures Laid(Merge(m, a, b))
  {
    hide Merge, End;
    var m': Blocks := Merge(m, a, b);
    forall c, d | c in m' && d in m' && c < d ensures End(m', c) <= d {
      MergeEnds(m, a, b, c);
      MergeEnds(m, a, b, d);
      assert c == a ==> End(m, a) <= d;
    }
  }

  lemma MergePlaced(base: nat, m: Blocks, brk: nat, a: nat, b: nat)
    requires Placed(base, m, brk) && a in m && b in m && a != b && End(m, a) == b && a != base && b != base
    ensures Placed(base, Merge(m, a, b), brk)
  {
    var m': Blocks := Merge(m, a, b);
    forall c | c in m' && c != base ensures base + UNIT <= c && m'[c] > 0 && End(m', c) <= brk {
      MergeEnds(m, a, b, c);
    }
  }

  lemma MergeKeeps(base: nat, m: Blocks, brk: nat, a: nat, b: nat)
    requires Laid(m) && Placed(base, m, brk) && a in m && b in m && End(m, a) == b && a != base && b != base
    ensures a != b && Laid(Merge(m, a, b)) && Placed(base, Merge(m, a, b), brk)
  {
    assert a < b;
    hide Laid, Placed;
    MergeApart(m, a, b);
    MergePlaced(base, m, brk, a, b);
  }

  lemma MergeUnits(m: Blocks, a: nat, b: nat)
    requires a in m && b in m && a != b
    ensures Units(Merge(m, a, b)) == Units(m)
  {
    UnitsWithout(m, b);
    UnitsPut(m - {b}, a, m[a] + m[b]);
  }

  /** The blocks and the free ones after free has handled the upper neighbour q of bp. */
  function JoinNext(m: Blocks, bp: nat, q: nat): Blocks
    requires bp in m && q in m
  {
    if End(m, bp) == q then Merge(m, bp, q) else m
  }

  function FreeWithNext(m: Blocks, s: set<nat>, bp: nat, q: nat): set<nat>
    requires bp in m && q in m
  {
    if End(m, bp) == q then s + {bp} - {q} else s + {bp}
  }

  /** And after it has handled the lower neighbour p. */
  function Freed(m: Blocks, p: nat, bp: nat, q: nat): Blocks
    requires bp in m && q in m && p in m && p < bp
  {
    var m1 := JoinNext(m, bp, q);
    if End(m1, p) == bp then Merge(m1, p, bp) else m1
  }

  function FreedSet(m: Blocks, s: set<nat>, p: nat, bp: nat, q: nat): set<nat>
    requires bp in m && q in m && p in m
  {
    var s1 := FreeWithNext(m, s, bp, q);
    if End(m, p) == bp then s1 - {bp} else s1
  }

  /** The links as free leaves them. */
  function FreedLinks(m: Blocks, ptr: map<nat, nat>, p: nat, bp: nat): map<nat, nat>
    requires p in m && bp in m && p in ptr && ptr[p] in ptr
  {
    var q := ptr[p];
    var next := if End(m, bp) == q then ptr[q] else q;
    ptr[bp := next][p := if End(m, p) == bp then next else bp]
  }

  lemma SuccIn(base: nat, s: set<nat>, a: nat, b: nat)
    requires Succ(base, s, a, b)
    ensures b in s
  {
  }

  lemma FreedRing(base: nat, m: Blocks, s: set<nat>, ptr: map<nat, nat>, p: nat, bp: nat)
    requires s <= m.Keys && bp in m && base < bp
    requires Ring(base, s, ptr) && Gap(s, p, bp) && Linked(base, s, ptr, p) && Linked(base, s, ptr, ptr[p])
    ensures ptr[p] in s && Ring(base, FreedSet(m, s, p, bp, ptr[p]), FreedLinks(m, ptr, p, bp))
  {
    hide Succ;
    var q := ptr[p];
    SuccIn(base, s, p, q);
    InsertRing(base, s, ptr, p, bp);
    var t, links := s + {bp}, ptr[bp := q][p := bp];
    if End(m, bp) == q {
      assert Linked(base, t, links, bp) && Linked(base, t, links, q);
      RemoveRing(base, t, links, bp, q);
      t, links := t - {q}, links[bp := links[q]];
    }
    if End(m, p) == bp {
      assert Linked(base, t, links, p) && Linked(base, t, links, bp);
      RemoveRing(base, t, links, p, bp);
      t, links := t - {bp}, links[p := links[bp]];
    }
    assert FreedLinks(m, ptr, p, bp) == links;
  }

  /** Freeing the block at bp keeps the heap in order and coalesced. */
  lemma FreedArena(base: nat, m: Blocks, s: set<nat>, brk: nat, p: nat, bp: nat, q: nat)
    requires Arena(base, m, s, brk) && bp in m && bp !in s && Gap(s, p, bp) && Succ(base, s, p, q)
    ensures Arena(base, Freed(m, p, bp, q), FreedSet(m, s, p, bp, q), brk)
  {
    hide Laid, Placed, Coalesced, Succ;
    SuccIn(base, s, p, q);
    FreedCoalesced(base, m, s, brk, p, bp, q);
    NeighboursApart(base, m, s, brk, p, bp, q);
    if End(m, bp) == q {
      MergeKeeps(base, m, brk, bp, q);
    }
    var m1: Blocks := JoinNext(m, bp, q);
    if End(m1, p) == bp {
      MergeKeeps(base, m1, brk, p, bp);
    }
  }

  lemma NeighboursApart(base: nat, m: Blocks, s: set<nat>, brk: nat, p: nat, bp: nat, q: nat)
    requires Arena(base, m, s, brk) && bp in m && bp !in s && Gap(s, p, bp) && Succ(base, s, p, q)
    ensures base < bp && (End(m, bp) == q ==> q != base && bp < q) && (End(m, p) == bp ==> p != base)
  {
  }

  /** The total of all blocks stays the same. */
  lemma FreedUnits(m: Blocks, p: nat, bp: nat, q: nat)
    requires bp in m && q in m && p in m && p < bp && (End(m, bp) == q ==> bp != q)
    ensures Units(Freed(m, p, bp, q)) == Units(m)
  {
    hide Units;
    if End(m, bp) == q {
      MergeUnits(m, bp, q);
    }
    var m1: Blocks := JoinNext(m, bp, q);
    if End(m1, p) == bp {
      MergeUnits(m1, p, bp);
    }
  }

  /** Where the blocks end after free. */
  lemma FreedEnd(m: Blocks, p: nat, bp: nat, q: nat, a: nat)
    requires bp in m && q in m && p in m && p < bp && (End(m, bp) == q ==> bp != q) && a in Freed(m, p, bp, q)
    ensures var end := if End(m, bp) == q then End(m, q) else End(m, bp);
            && a in m && End(Freed(m, p, bp, q), a) ==
                 if a == bp || (a == p && End(m, p) == bp) then end else End(m, a)
  {
    var m1: Blocks := JoinNext(m, bp, q);
    if End(m, bp) == q {
      assert End(m1, bp) == End(m, q);
    }
  }

  /** Two free blocks after free; what is required of a, b, bp and q is what the order of the heap before says. */
  lemma FreedPair(m: Blocks, s: set<nat>, p: nat, bp: nat, q: nat, a: nat, b: nat)
    requires bp in m && q in m && p in m && p < bp && (End(m, bp) == q ==> bp < q) && a in Freed(m, p, bp, q)
    requires a in FreedSet(m, s, p, bp, q) && b in FreedSet(m, s, p, bp, q) && a < b && bp !in s && q in s
    requires a in m && a in s && b in s ==> End(m, a) < b
    requires a in m && a in s && a < bp ==> End(m, a) <= bp && (a != p ==> End(m, a) < bp)
    requires b in s && b > bp ==> q <= b && End(m, bp) <= b && (End(m, bp) != q ==> End(m, bp) < b)
    requires b in s && b > q ==> End(m, q) < b
    requires (a in s ==> a <= p || bp < a) && (b in s ==> b <= p || bp < b)
    ensures End(Freed(m, p, bp, q), a) < b
  {
    FreedEnd(m, p, bp, q, a);
    hide Freed, End;
  }

  lemma FreedCoalesced(base: nat, m: Blocks, s: set<nat>, brk: nat, p: nat, bp: nat, q: nat)
    requires Arena(base, m, s, brk) && bp in m && bp !in s && Gap(s, p, bp) && Succ(base, s, p, q)
    ensures Coalesced(Freed(m, p, bp, q), FreedSet(m, s, p, bp, q))
  {
    NeighboursApart(base, m, s, brk, p, bp, q);
    NextIsApart(base, m, s, brk, p, bp, q);
    hide Freed, FreedSet, End, Laid, Placed;
    var m2: Blocks, t := Freed(m, p, bp, q), FreedSet(m, s, p, bp, q);
    forall a, b | a in t && b in t && a in m2 && a < b ensures End(m2, a) < b {
      FreedPair(m, s, p, bp, q, a, b);
    }
  }

  /** A block that does not join the freed one leaves room between them, and so does the block after q. */
  lemma NextIsApart(base: nat, m: Blocks, s: set<nat>, brk: nat, p: nat, bp: nat, q: nat)
    requires Arena(base, m, s, brk) && bp in m && bp !in s && Gap(s, p, bp) && Succ(base, s, p, q)
    ensures forall b :: b in s && b > bp ==> End(m, bp) <= b && (End(m, bp) != q ==> End(m, bp) < b)
    ensures forall a :: a in s && a < bp ==> End(m, a) <= bp && (a != p ==> End(m, a) < bp)
  {
  }

  // ----- malloc

  lemma TakenWhole(base: nat, m: Blocks, s: set<nat>, brk: nat, p: nat)
    requires Arena(base, m, s, brk) && p in s && p != base
    ensures Arena(base, m, s - {p}, brk)
  {
  }

  /** The free block at p gives up its tail of n units. */
  function Split(m: Blocks, p: nat, n: nat): Blocks
    requires p in m && n < m[p]
  {
    m[p := m[p] - n][p + UNIT * (m[p] - n) := n]
  }

  lemma TakenTail(base: nat, m: Blocks, s: set<nat>, brk: nat, p: nat, n: nat)
    requires Arena(base, m, s, brk) && p in s && 0 < n < m[p]
    ensures p + UNIT * (m[p] - n) !in m && Arena(base, Split(m, p, n), s, brk)
  {
    hide Split;
    SplitFresh(base, m, s, brk, p, n);
    SplitLaid(base, m, s, brk, p, n);
    SplitFree(base, m, s, brk, p, n);
  }

  lemma SplitFresh(base: nat, m: Blocks, s: set<nat>, brk: nat, p: nat, n: nat)
    requires Arena(base, m, s, brk) && p in s && 0 < n < m[p]
    ensures p + UNIT * (m[p] - n) !in m
  {
    var r := p + UNIT * (m[p] - n);
    assert r in m ==> End(m, p) <= r;
  }

  lemma SplitLaid(base: nat, m: Blocks, s: set<nat>, brk: nat, p: nat, n: nat)
    requires Arena(base, m, s, brk) && p in s && 0 < n < m[p] && p + UNIT * (m[p] - n) !in m
    ensures Laid(Split(m, p, n))
  {
    var r, m': Blocks := p + UNIT * (m[p] - n), Split(m, p, n);
    forall c, d | c in m' && d in m' && c < d ensures End(m', c) <= d {
      assert c != p && c != r ==> m'[c] == m[c];
      assert d != r ==> d in m;
    }
  }

  lemma SplitFree(base: nat, m: Blocks, s: set<nat>, brk: nat, p: nat, n: nat)
    requires Arena(base, m, s, brk) && p in s && 0 < n < m[p] && p + UNIT * (m[p] - n) !in m
    ensures s <= Split(m, p, n).Keys && base in s && Split(m, p, n)[base] == 0 && base + UNIT <= brk
    ensures Placed(base, Split(m, p, n), brk) && Coalesced(Split(m, p, n), s)
  {
    hide Laid;
  }

  lemma SplitUnits(m: Blocks, p: nat, n: nat)
    requires p in m && 0 < n < m[p] && p + UNIT * (m[p] - n) !in m
    ensures Units(Split(m, p, n)) == Units(m)
  {
    UnitsPut(m, p, m[p] - n);
    UnitsPut(m[p := m[p] - n], p + UNIT * (m[p] - n), n);
  }
}
