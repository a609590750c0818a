/** The user-space allocator: free, morecore and malloc on memory words. */
module Umalloc {
  import opened Params
  import Counting
  import opened FreeList
  import opened Wrappers

  const MIN_CORE: nat := 4096

  /** malloc's unit count: the request rounded up to whole headers, plus one for the block's own. */
  function NUnits(nbytes: Uint): (n: nat)
    ensures 0 < n <= WORD_MOD / UNIT
  {
    (nbytes + UNIT - 1) % WORD_MOD / UNIT + 1
  }

  /** The block has room for the request exactly when rounding up does not wrap around. */
  lemma EnoughUnits(nbytes: Uint)
    ensures UNIT * (NUnits(nbytes) - 1) >= nbytes <==> nbytes <= WORD_MOD - UNIT
  {
  }

  /** And then it is the least count with room; a request that wraps gets a bare header. */
  lemma LeastUnits(nbytes: Uint, n: nat)
    ensures nbytes <= WORD_MOD - UNIT ==> (n >= NUnits(nbytes) <==> n > 0 && UNIT * (n - 1) >= nbytes)
    ensures nbytes > WORD_MOD - UNIT ==> NUnits(nbytes) == 1
  {
    var m := NUnits(nbytes);
    if nbytes <= WORD_MOD - UNIT {
      assert UNIT * (m - 1) >= nbytes > UNIT * (m - 1) - UNIT;
    }
  }

  /** The argument sbrk receives, an int, for a request of nu units. */
  function SbrkArg(nu: nat): int {
    var n := UNIT * nu % WORD_MOD;
    if n < WORD_MOD / 2 then n else n - WORD_MOD
  }

  /** sbrk is asked for the units meant exactly below 2^28 units. */
  lemma AskedAsMeant(nu: nat)
    ensures SbrkArg(nu) == UNIT * nu <==> nu < KERNBASE / UNIT
  {
  }

  /** Astray: sbrk was asked for something other than the block that malloc goes on to use. */
  datatype Outcome = Null | Astray | Block(addr: nat)

  ghost function Above(s: set<nat>, p: nat): set<nat> {
    set c | c in s && c > p
  }

  lemma AboveShrinks(s: set<nat>, p: nat, q: nat)
    requires q in s && p < q
    ensures |Above(s, q)| < |Above(s, p)|
  {
    assert Above(s, q) + {q} <= Above(s, p);
    Counting.SubsetIsNoLarger(Above(s, q) + {q}, Above(s, p));
  }

  /** The free blocks that a circuit from f has passed when it is at p are all smaller than n. */
  ghost predicate TooSmall(m: Blocks, s: set<nat>, f: nat, p: nat, n: nat) {
    forall c :: c in s && c in m && (if f < p then f < c < p else f < c || c < p) ==> m[c] < n
  }

  lemma PassOne(base: nat, m: Blocks, s: set<nat>, f: nat, p: nat, q: nat, n: nat)
    requires TooSmall(m, s, f, p, n) && p in m && m[p] < n && Succ(base, s, p, q) && p != f && f in s && p in s
    requires forall c :: c in s ==> base <= c
    ensures TooSmall(m, s, f, q, n)
    ensures if p > f then q <= f || q > p else p < q <= f
  {
  }

  lemma StartCircuit(base: nat, m: Blocks, s: set<nat>, f: nat, q: nat, n: nat)
    requires Succ(base, s, f, q) && forall c :: c in s ==> base <= c
    ensures TooSmall(m, s, f, q, n)
  {
  }

  lemma CircuitDone(m: Blocks, s: set<nat>, f: nat, n: nat, c: nat)
    requires TooSmall(m, s, f, f, n) && f in m && m[f] < n && c in s && c in m
    ensures m[c] < n
  {
  }

  /** What free does to the blocks in use and to the block it is given. */
  lemma FreedKeepsLive(base: nat, m: Blocks, s: set<nat>, brk: nat, p: nat, bp: nat, q: nat)
    requires Arena(base, m, s, brk) && bp in m && bp !in s && Gap(s, p, bp) && q in s
    ensures var m', s' := Freed(m, p, bp, q), FreedSet(m, s, p, bp, q);
            && m'.Keys - s' == m.Keys - s - {bp} && (forall b :: b in m.Keys - s - {bp} ==> m'[b] == m[b])
            && p in s' && exists c :: c in s' && c in m' && m'[c] >= m[bp]
  {
    hide Laid, Placed;
    var m', s' := Freed(m, p, bp, q), FreedSet(m, s, p, bp, q);
    assert if End(m, p) == bp then p in s' && m'[p] >= m[bp] else bp in s' && m'[bp] >= m[bp];
  }

  /** Every free block is as it was, or is the one that the freed block has become part of. */
  lemma FreedOthers(base: nat, m: Blocks, s: set<nat>, brk: nat, p: nat, bp: nat, q: nat, c: nat)
    requires Arena(base, m, s, brk) && bp in m && bp !in s && Gap(s, p, bp) && q in s
    requires c in FreedSet(m, s, p, bp, q)
    ensures var m' := Freed(m, p, bp, q);
            c in m' && ((c in s && m'[c] == m[c]) || End(m', c) >= End(m, bp))
  {
  }

  lemma GrownLaid(base: nat, m: Blocks, brk: nat, n: nat)
    requires Laid(m) && Placed(base, m, brk) && base in m && m[base] == 0 && base + UNIT <= brk && n > 0
    ensures brk !in m && Laid(m[brk := n]) && Placed(base, m[brk := n], brk + UNIT * n)
  {
    var m': Blocks := m[brk := n];
    forall a | a in m ensures a < brk && End(m, a) <= brk {
      assert a != base ==> m[a] > 0;
    }
    forall a | a in m ensures End(m', a) == End(m, a) {
    }
    hide End;
    assert End(m', brk) == brk + UNIT * n by {
      EndOf(m', brk);
    }
  }

  lemma EndOf(m: Blocks, a: nat)
    requires a in m
    ensures End(m, a) == a + UNIT * m[a]
  {
  }

  lemma GrownCoalesced(m: Blocks, s: set<nat>, brk: nat, n: nat)
    requires Coalesced(m, s) && s <= m.Keys && brk !in m
    ensures Coalesced(m[brk := n], s)
  {
    forall a, b | a in s && b in s && a < b ensures End(m[brk := n], a) < b {
      assert End(m[brk := n], a) == End(m, a);
    }
  }

  /** A new block at the end of the heap. */
  lemma Grown(base: nat, m: Blocks, s: set<nat>, brk: nat, n: nat)
    requires Arena(base, m, s, brk) && n > 0
    ensures brk !in m && Arena(base, m[brk := n], s, brk + UNIT * n) && Units(m[brk := n]) == Units(m) + n
  {
    hide Laid, Placed, Coalesced, Units;
    GrownLaid(base, m, brk, n);
    GrownCoalesced(m, s, brk, n);
    UnitsPut(m, brk, n);
  }

  class Allocator {
    const base: nat
    var ptr: map<nat, nat>           // the words of the headers in memory
    var size: map<nat, nat>
    var freep: Option<nat>
    var brk: nat                     // the end of the process's memory
    ghost var blocks: Blocks         // all blocks with their units, base included,
    ghost var free: set<nat>         // the free ones,
    ghost var got: nat               // and the units obtained from sbrk

    ghost predicate Valid()
      reads this
    {
      && base + UNIT <= brk <= KERNBASE && Units(blocks) == got
      && (freep.None? ==> blocks == map[] && free == {})
      && (freep.Some? ==> Arena(base, blocks, free, brk) && Ring(base, free, ptr) && freep.value in free && Headers())
    }

    /** The size words in memory are those of the blocks. */
    ghost predicate Headers()
      reads this`blocks, this`size
    {
      forall a :: a in blocks ==> a in size && size[a] == blocks[a]
    }

    ghost function Live(): set<nat>
      reads this
    {
      blocks.Keys - free
    }

    constructor (b: nat, end: nat)
      requires b + UNIT <= end <= KERNBASE
      ensures Valid() && Live() == {} && got == 0
    {
      base, brk, ptr, size, freep := b, end, map[], map[], None;
      blocks, free, got := map[], {}, 0;
    }

    /** free's search for the place of bp on the list. */
    method FindGap(bp: nat) returns (p: nat)
      requires Valid() && freep.Some? && base < bp && bp !in free
      ensures Gap(free, p, bp)
    {
      hide Arena, Units, Headers;
      p := freep.value;
      assert Linked(base, free, ptr, p);
      while !(bp > p && bp < ptr[p])
        invariant p in free && Linked(base, free, ptr, p)
        decreases if p > bp then 1 else 0, |Above(free, p)|
      {
        if p >= ptr[p] && (bp > p || bp < ptr[p]) {
          break;
        }
        if p < ptr[p] {
          AboveShrinks(free, p, ptr[p]);
        }
        p := ptr[p];
        assert Linked(base, free, ptr, p);
      }
    }

    /** Return the block whose first usable byte is ap. */
    method Free(ap: nat)
      requires Valid() && ap >= UNIT && ap - UNIT in Live()
      modifies this`ptr, this`size, this`freep, this`blocks, this`free
      ensures Valid() && freep.Some? && Live() == old(Live()) - {ap - UNIT}
      ensures forall b :: b in Live() ==> b in blocks && blocks[b] == old(blocks)[b]
      ensures exists c :: c in free && c in blocks && blocks[c] >= old(blocks)[ap - UNIT]
      ensures FreedInto(old(blocks), old(free), blocks, free, ap - UNIT)
    {
      hide Arena, Units, Succ, Headers;
      var bp := ap - UNIT;
      BaseBelow(bp);
      var p := FindGap(bp);
      Unlinked(p, bp);
      var q := ptr[p];
      FreedRing(base, blocks, free, ptr, p, bp);
      FreedArena(base, blocks, free, brk, p, bp, q);
      FreedUnits(blocks, p, bp, q);
      FreedKeepsLive(base, blocks, free, brk, p, bp, q);
      forall c | c in FreedSet(blocks, free, p, bp, q)
        ensures var m' := Freed(blocks, p, bp, q);
                c in m' && ((c in free && m'[c] == blocks[c]) || End(m', c) >= End(blocks, bp))
      {
        FreedOthers(base, blocks, free, brk, p, bp, q, c);
      }
      Relink(p, bp);
      freep := Some(p);
    }

    /** The pointer and size assignments of free. */
    method Relink(p: nat, bp: nat)
      requires Headers() && p in blocks && bp in blocks && p < bp && p in ptr && ptr[p] in ptr && ptr[p] in blocks
      requires ptr[p] != bp
      modifies this`ptr, this`size, this`blocks, this`free
      ensures ptr == FreedLinks(old(blocks), old(ptr), p, bp) && Headers()
      ensures blocks == Freed(old(blocks), p, bp, old(ptr)[p])
      ensures free == FreedSet(old(blocks), old(free), p, bp, old(ptr)[p])
    {
      ghost var m, s, q := blocks, free, ptr[p];
      if bp + UNIT * size[bp] == ptr[p] {
        size := size[bp := size[bp] + size[ptr[p]]];
        ptr := ptr[bp := ptr[ptr[p]]];
      } else {
        ptr := ptr[bp := ptr[p]];
      }
      if p + UNIT * size[p] == bp {
        size := size[p := size[p] + size[bp]];
        ptr := ptr[p := ptr[bp]];
      } else {
        ptr := ptr[p := bp];
      }
      blocks, free := Freed(m, p, bp, q), FreedSet(m, s, p, bp, q);
    }

    /** Ask sbrk for at least nu units, of `mem` bytes it can still give, and put them on the list. */
    method Morecore(nu: nat, mem: nat) returns (r: Outcome)
      requires Valid() && freep.Some? && 0 < nu
      modifies this
      ensures Valid() && freep.Some? && Live() == old(Live())
      ensures forall b :: b in Live() ==> b in blocks && blocks[b] == old(blocks)[b]
      ensures r.Astray? <==> AtLeast(nu) >= KERNBASE / UNIT
      ensures r.Null? <==> AtLeast(nu) < KERNBASE / UNIT && !Grants(old(brk), AtLeast(nu), mem)
      ensures r.Block? ==> got == old(got) + AtLeast(nu) && r.addr == freep.value && HasFit(nu)
      ensures r.Block? && Exhausted(old(blocks), old(free), nu) ==> OnlyTop(blocks, free, nu, brk)
      ensures !r.Block? ==> blocks == old(blocks) && free == old(free) && got == old(got)
      ensures brk == old(brk) + UNIT * (got - old(got))
    {
      hide Arena, Units, Ring, Headers;
      var n := if nu < MIN_CORE then MIN_CORE else nu;
      if SbrkArg(n) != UNIT * n {
        AskedAsMeant(n);
        return Astray;
      }
      AskedAsMeant(n);
      if !Grants(brk, n, mem) {
        return Null;
      }
      var hp := brk;
      ghost var s0 := free;
      Extend(n);
      ghost var m1 := blocks;
      Free(hp + UNIT);
      if Exhausted(old(blocks), s0, nu) {
        TopAlone(base, m1, s0, blocks, free, hp, nu, brk);
      }
      return Block(freep.value);
    }

    /** sbrk's success and the new block's size word. */
    method Extend(n: nat)
      requires Valid() && freep.Some? && n > 0 && brk + UNIT * n <= KERNBASE
      modifies this`brk, this`size, this`blocks, this`got
      ensures Valid() && Live() == old(Live()) + {old(brk)} && old(brk) !in old(blocks)
      ensures blocks == old(blocks)[old(brk) := n]
      ensures got == old(got) + n && brk == old(brk) + UNIT * n
    {
      hide Arena, Units, Ring;
      Grown(base, blocks, free, brk, n);
      GrownFresh(base, blocks, free, brk);
      size := size[brk := n];
      blocks, got := blocks[brk := n], got + n;
      brk := brk + UNIT * n;
    }

    /** First fit from freep on; when a whole circuit finds nothing, more memory and another circuit. */
    method Malloc(nbytes: Uint, mem: nat) returns (r: Outcome)
      requires Valid()
      modifies this
      ensures Valid() && forall b :: b in old(Live()) ==> b in blocks && b in Live() && blocks[b] == old(blocks)[b]
      ensures r.Astray? <==> NUnits(nbytes) >= KERNBASE / UNIT
      ensures r.Block? ==> Allotted(r.addr, NUnits(nbytes), old(Live()))
      ensures !r.Block? ==> Live() == old(Live()) && got == old(got)
      ensures || got == old(got)
              || (Exhausted(old(blocks), old(free), NUnits(nbytes)) && got == old(got) + AtLeast(NUnits(nbytes)))
      ensures brk == old(brk) + UNIT * (got - old(got))
      ensures r.Block? && got == old(got) ==>
                && old(freep).Some? && freep.Some?
                && exists p :: TakenAt(base, old(blocks), old(free), old(freep).value, p, NUnits(nbytes), r.addr,
                                       freep.value)
      ensures r.Block? && got > old(got) ==> r.addr - UNIT + UNIT * NUnits(nbytes) == brk
      ensures r.Null? <==> Exhausted(old(blocks), old(free), NUnits(nbytes)) && NUnits(nbytes) < KERNBASE / UNIT
                             && !Grants(old(brk), AtLeast(NUnits(nbytes)), mem)
    {
      hide Valid, Searching, HasFit, Exhausted, Allotted, Grants, Live, TakenAt, OnlyTop;
      var nunits := NUnits(nbytes);
      if freep.None? {
        Initialise(nunits);
      }
      ghost var m0, s0, live0, f0 := blocks, free, Live(), freep;
      var prevp: nat := freep.value;
      LiveBlocks();
      BeginCircuit(nunits, live0, m0);
      var p: nat := ptr[prevp];
      ghost var grown := false;
      while true
        invariant freep.Some? && Searching(prevp, p, nunits, live0, m0)
        invariant !grown ==> blocks == m0 && free == s0 && freep == f0 && got == old(got) && brk == old(brk)
        invariant grown ==> HasFit(nunits) && Exhausted(m0, s0, nunits) && got == old(got) + AtLeast(nunits)
        invariant grown ==> nunits < KERNBASE / UNIT && OnlyTop(blocks, free, nunits, brk)
        invariant grown ==> Grants(old(brk), AtLeast(nunits), mem)
        invariant brk == old(brk) + UNIT * (got - old(got))
        decreases if grown then 0 else 1, if p > freep.value then 1 else 0, |Above(free, p)|
      {
        Sized(prevp, p, nunits, live0, m0);
        if size[p] >= nunits {
          ghost var at := p;
          r := Take(prevp, p, nunits, live0, m0);
          assert !grown ==> TakenAt(base, m0, s0, f0.value, at, nunits, r.addr, freep.value);
          return;
        }
        if p == freep.value {
          NothingFits(prevp, p, nunits, live0, m0);
          r := Morecore(nunits, mem);
          if !r.Block? {
            return;
          }
          grown := true;
          p := r.addr;
          BeginCircuit(nunits, live0, m0);
        } else {
          PassNode(prevp, p, nunits, live0, m0);
        }
        prevp, p := p, ptr[p];
      }
    }

    /** malloc's first call makes a list of base alone. */
    method Initialise(n: nat)
      requires Valid() && freep.None? && n > 0
      modifies this`ptr, this`size, this`freep, this`blocks, this`free
      ensures Valid() && freep.Some? && Live() == old(Live()) == {} && Exhausted(old(blocks), old(free), n)
      ensures Exhausted(blocks, free, n)
    {
      ptr, size := ptr[base := base], size[base := 0];
      freep := Some(base);
      blocks, free := map[base := 0], {base};
      assert Units(blocks) == 0 by {
        UnitsPut(map[], base, 0);
        assert Units(map[]) == 0;
      }
    }

    /** malloc's search stands at p, after prevp. */
    ghost predicate Searching(prevp: nat, p: nat, n: nat, live0: set<nat>, m0: Blocks)
      reads this
    {
      && Valid() && freep.Some? && prevp in free && Linked(base, free, ptr, prevp) && ptr[prevp] == p
      && TooSmall(blocks, free, freep.value, p, n)
      && Live() == live0 && forall b :: b in live0 ==> b in blocks && b in m0 && blocks[b] == m0[b]
    }

    lemma BeginCircuit(n: nat, live0: set<nat>, m0: Blocks)
      requires Valid() && freep.Some? && Live() == live0
      requires forall b :: b in live0 ==> b in blocks && b in m0 && blocks[b] == m0[b]
      ensures freep.value in ptr && Searching(freep.value, ptr[freep.value], n, live0, m0)
    {
      assert Linked(base, free, ptr, freep.value);
      Based();
      StartCircuit(base, blocks, free, freep.value, ptr[freep.value], n);
    }

    lemma LiveBlocks()
      ensures forall b :: b in Live() ==> b in blocks
    {
    }

    lemma Based()
      requires Valid() && freep.Some?
      ensures forall c :: c in free ==> base <= c
    {
      forall c | c in free ensures base <= c {
        assert Linked(base, free, ptr, c);
      }
    }

    lemma Sized(prevp: nat, p: nat, n: nat, live0: set<nat>, m0: Blocks)
      requires Searching(prevp, p, n, live0, m0)
      ensures p in size && p in blocks && size[p] == blocks[p] && p in free && Valid()
    {
    }

    lemma NothingFits(prevp: nat, p: nat, n: nat, live0: set<nat>, m0: Blocks)
      requires Searching(prevp, p, n, live0, m0) && p in blocks && blocks[p] < n && p == freep.value
      ensures !HasFit(n) && Exhausted(blocks, free, n) && Live() == live0
      ensures forall b :: b in live0 ==> b in blocks && b in m0 && blocks[b] == m0[b]
    {
      forall c | c in free && c in blocks ensures blocks[c] < n {
        CircuitDone(blocks, free, p, n, c);
      }
    }

    lemma PassNode(prevp: nat, p: nat, n: nat, live0: set<nat>, m0: Blocks)
      requires Searching(prevp, p, n, live0, m0) && p in blocks && blocks[p] < n && p != freep.value
      ensures p in ptr && Searching(p, ptr[p], n, live0, m0)
      ensures if p > freep.value then ptr[p] <= freep.value || |Above(free, ptr[p])| < |Above(free, p)|
              else p < ptr[p] <= freep.value && |Above(free, ptr[p])| < |Above(free, p)|
    {
      assert Linked(base, free, ptr, p);
      Based();
      PassOne(base, blocks, free, freep.value, p, ptr[p], n);
      if p < ptr[p] {
        AboveShrinks(free, p, ptr[p]);
      }
    }

    /** Hand out the block at p, or its tail. */
    method Take(prevp: nat, p: nat, n: nat, ghost live0: set<nat>, ghost m0: Blocks) returns (r: Outcome)
      requires Searching(prevp, p, n, live0, m0) && p in blocks && p in size && size[p] == blocks[p] >= n > 0
      modifies this`ptr, this`size, this`freep, this`blocks, this`free
      ensures Valid() && r.Block? && Allotted(r.addr, n, live0)
      ensures forall b :: b in live0 ==> b in blocks && b in m0 && b in Live() && blocks[b] == m0[b]
      ensures n < KERNBASE / UNIT && !Exhausted(old(blocks), old(free), n)
      ensures freep.Some? && TakenAt(base, old(blocks), old(free), old(freep).value, p, n, r.addr, freep.value)
      ensures OnlyTop(old(blocks), old(free), n, brk) ==> r.addr - UNIT + UNIT * n == brk
    {
      hide Valid, Searching, TakenAt, OnlyTop, Exhausted, Allotted, Live;
      NotBase(prevp, p, n, live0, m0);
      TakesHere(prevp, p, n, live0, m0);
      if size[p] == n {
        r := TakeWhole(prevp, p, n, live0, m0);
      } else {
        r := TakeTail(prevp, p, n, live0, m0);
      }
    }

    /** The block fits exactly and leaves the list. */
    method TakeWhole(prevp: nat, p: nat, n: nat, ghost live0: set<nat>, ghost m0: Blocks) returns (r: Outcome)
      requires Searching(prevp, p, n, live0, m0) && p in blocks && p in size && size[p] == blocks[p] == n > 0
      modifies this`ptr, this`freep, this`free
      ensures Valid() && freep == Some(prevp) && r == Block(p + UNIT) && Allotted(r.addr, n, live0)
      ensures forall b :: b in live0 ==> b in blocks && b in m0 && b in Live() && blocks[b] == m0[b]
    {
      hide Units, Arena, Succ, TooSmall;
      NotBase(prevp, p, n, live0, m0);
      TakenWhole(base, blocks, free, brk, p);
      RemoveRing(base, free, ptr, prevp, p);
      ptr := ptr[prevp := ptr[p]];
      free := free - {p};
      freep := Some(prevp);
      ApartFromLive(p);
      return Block(p + UNIT);
    }

    /** The block is larger: its tail is cut off. */
    method TakeTail(prevp: nat, p: nat, n: nat, ghost live0: set<nat>, ghost m0: Blocks) returns (r: Outcome)
      requires Searching(prevp, p, n, live0, m0) && p in blocks && p in size && size[p] == blocks[p] > n > 0
      modifies this`size, this`freep, this`blocks
      ensures r == Block(p + UNIT * (old(blocks)[p] - n) + UNIT)
      ensures Valid() && freep == Some(prevp) && Allotted(r.addr, n, live0)
      ensures forall b :: b in live0 ==> b in blocks && b in m0 && b in Live() && blocks[b] == m0[b]
    {
      hide Units, Arena, Succ, TooSmall, Ring;
      NotBase(prevp, p, n, live0, m0);
      TakenTail(base, blocks, free, brk, p, n);
      SplitUnits(blocks, p, n);
      ghost var m := Split(blocks, p, n);
      size := size[p := size[p] - n];
      var q := p + UNIT * size[p];
      size := size[q := n];
      blocks := m;
      freep := Some(prevp);
      ApartFromLive(q);
      return Block(q + UNIT);
    }

    lemma TakesHere(prevp: nat, p: nat, n: nat, live0: set<nat>, m0: Blocks)
      requires Searching(prevp, p, n, live0, m0) && p in blocks && blocks[p] >= n > 0
      ensures TakenAt(base, blocks, free, freep.value, p, n, p + UNIT * (blocks[p] - n) + UNIT, prevp)
      ensures OnlyTop(blocks, free, n, brk) ==> p + UNIT * blocks[p] == brk
      ensures !Exhausted(blocks, free, n) && prevp in ptr && p in ptr
    {
      hide Arena, Units, TooSmall;
      assert Linked(base, free, ptr, p);
      assert Linked(base, free, ptr, prevp);
    }

    lemma NotBase(prevp: nat, p: nat, n: nat, live0: set<nat>, m0: Blocks)
      requires Searching(prevp, p, n, live0, m0) && p in blocks && blocks[p] >= n > 0
      ensures p != base && p in free && free <= blocks.Keys && prevp != p && n < KERNBASE / UNIT
      ensures Linked(base, free, ptr, p) && Linked(base, free, ptr, prevp)
    {
      assert Linked(base, free, ptr, p);
    }

    /** A block in use overlaps no other. */
    lemma ApartFromLive(q: nat)
      requires Valid() && freep.Some? && q in Live()
      ensures forall b :: b in Live() && b != q ==> End(blocks, q) <= b || End(blocks, b) <= q
    {
    }

    /** addr is the first usable byte of a block of n units that was not in use and is now. */
    ghost predicate Allotted(addr: nat, n: nat, live0: set<nat>)
      reads this
    {
      var q := addr - UNIT;
      && addr >= UNIT && q !in live0 && Live() == live0 + {q} && blocks[q] == n
      && forall b :: b in live0 ==> b in blocks && (End(blocks, q) <= b || End(blocks, b) <= q)
    }

    ghost predicate HasFit(n: nat)
      reads this
    {
      exists c :: c in free && c in blocks && blocks[c] >= n
    }

    lemma BaseBelow(bp: nat)
      requires Valid() && bp in Live()
      ensures freep.Some? && base < bp && bp in blocks && bp !in free && free <= blocks.Keys
    {
    }

    lemma Unlinked(p: nat, bp: nat)
      requires Valid() && freep.Some? && Gap(free, p, bp) && bp in Live()
      ensures Linked(base, free, ptr, p) && ptr[p] in free && Linked(base, free, ptr, ptr[p]) && ptr[p] in ptr
      ensures ptr[p] in blocks
      ensures p in blocks && ptr[p] != bp && Succ(base, free, p, ptr[p]) && Headers()
      ensures End(blocks, bp) == ptr[p] ==> bp != ptr[p]
    {
      assert Linked(base, free, ptr, p);
      assert Linked(base, free, ptr, ptr[p]);
    }
  }

  /** A free block is as it was, or reaches beyond the block at bp, which was freed. */
  ghost predicate FreedInto(m: Blocks, s: set<nat>, m': Blocks, s': set<nat>, bp: nat) {
    bp in m && forall c :: c in s' ==>
      c in m' && ((c in s && c in m && m'[c] == m[c]) || End(m', c) >= End(m, bp))
  }

  /** What malloc takes, when the free list has a block of n units: the first one on the way from f on, or its tail;
      the next search starts before it. */
  ghost predicate TakenAt(base: nat, m: Blocks, s: set<nat>, f: nat, p: nat, n: nat, addr: nat, f': nat) {
    && p in s && p in m && m[p] >= n && TooSmall(m, s, f, p, n)
    && addr == p + UNIT * (m[p] - n) + UNIT && Succ(base, s, f', p)
  }

  /** Only the block at the end of the heap has n units. */
  ghost predicate OnlyTop(m: Blocks, s: set<nat>, n: nat, brk: nat) {
    forall c :: c in s && c in m && m[c] >= n ==> End(m, c) == brk
  }

  /** Before the search began afresh after sbrk, no block had n units. */
  lemma TopAlone(base: nat, m: Blocks, s: set<nat>, m': Blocks, s': set<nat>, bp: nat, n: nat, brk: nat)
    requires Exhausted(m, s, n) && FreedInto(m, s, m', s', bp) && End(m, bp) == brk && n > 0
    requires Arena(base, m', s', brk)
    ensures OnlyTop(m', s', n, brk)
  {
  }

  /** morecore asks for at least 4096 units, and for more only when that many are needed. */
  lemma CoreAsked(nu: nat)
    ensures AtLeast(nu) >= 4096 && AtLeast(nu) >= nu && (AtLeast(nu) > 4096 ==> AtLeast(nu) == nu)
  {
  }

  function AtLeast(nu: nat): nat {
    if nu < MIN_CORE then MIN_CORE else nu
  }

  /** sbrk grants n units when neither memory nor the address space below the kernel runs out. */
  predicate Grants(brk: nat, n: nat, mem: nat) {
    UNIT * n <= mem && brk + UNIT * n < KERNBASE
  }

  /** No free block has n units. */
  ghost predicate Exhausted(m: Blocks, s: set<nat>, n: nat) {
    forall c :: c in s && c in m ==> m[c] < n
  }

  lemma GrownFresh(base: nat, m: Blocks, s: set<nat>, brk: nat)
    requires Arena(base, m, s, brk)
    ensures brk !in s && s <= m.Keys
  {
  }
}
