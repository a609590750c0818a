/** The in-memory side of the redo log: log_write, commit and recovery on top of the buffer cache. */
module Log {
  import Sequences
  import opened Params
  import opened Blocks
  import opened Counting
  import opened Recovery
  import opened BufferCache
  import opened Wrappers

  /** The buffers in `held` are referenced once each, all others not at all. */
  ghost predicate OnlyHeld(b: seq<Buf>, held: set<nat>) {
    |b| == NBUF + 1 && forall k :: 0 <= k < NBUF ==> b[k].refcnt == if k in held then 1 else 0
  }

  ghost function PinnedSet(b: seq<Buf>, home: map<nat, nat>): set<nat> {
    set n | n in home && Pinned(b, home, n)
  }

  lemma RelinkKeepsPins(b: seq<Buf>, b': seq<Buf>, home: map<nat, nat>)
    requires SameButLinks(b', b)
    ensures PinnedSet(b', home) == PinnedSet(b, home)
  {
    forall n | n in home ensures Pinned(b', home, n) == Pinned(b, home, n) {
      if home[n] < |b| {
        assert b'[home[n]].Core() == b[home[n]].Core();
      }
    }
  }

  lemma CoverIsLarge(n: nat, s: set<nat>, t: set<nat>)
    requires forall k :: 0 <= k < n ==> k in s + t
    ensures n <= |s| + |t|
  {
    SubsetIsNoLarger(Below(n), s + t);
  }

  /** Fewer pinned blocks and held buffers than NBUF leave a buffer to recycle. */
  lemma VictimExists(b: seq<Buf>, disk: Disk, view: Disk, home: map<nat, nat>, held: set<nat>)
    requires Coherent(b, disk, view, home) && OnlyHeld(b, held)
    requires |PinnedSet(b, home)| + |held| < NBUF
    ensures exists k :: 0 <= k < NBUF && b[k].Recyclable()
  {
    var p := PinnedSet(b, home);
    var image := Image(home, p);
    ImageIsNoLarger(home, p);
    if forall k :: 0 <= k < NBUF ==> k in image + held {
      CoverIsLarge(NBUF, image, held);
      assert false;
    }
    var k :| 0 <= k < NBUF && k !in image + held;
    assert BufOk(b[k], k, view, home);
  }

  /** No buffer in `held` holds block n. */
  ghost predicate Avoids(b: seq<Buf>, held: set<nat>, n: nat) {
    forall k :: k in held && k < NBUF && k < |b| ==> !b[k].Caches(n)
  }

  /** The buffers in `held` have neither blocks of the log nor blocks in bs. */
  ghost predicate Apart(b: seq<Buf>, held: set<nat>, l: Layout, bs: seq<nat>) {
    forall n {:trigger Avoids(b, held, n)} :: l.Holds(n) || n in bs ==> Avoids(b, held, n)
  }

  ghost predicate HeldSame(b: seq<Buf>, b': seq<Buf>, held: set<nat>) {
    |b'| == |b| == NBUF + 1 && forall k :: k in held && k < NBUF ==> b'[k].Core() == b[k].Core()
  }

  lemma AvoidsHome(b: seq<Buf>, disk: Disk, view: Disk, home: map<nat, nat>, held: set<nat>, n: nat)
    requires Coherent(b, disk, view, home) && Avoids(b, held, n)
    ensures n in home ==> home[n] !in held
  {
  }

  lemma AvoidsStill(b: seq<Buf>, b': seq<Buf>, held: set<nat>, n: nat)
    requires Avoids(b, held, n) && HeldSame(b, b', held)
    ensures Avoids(b', held, n)
  {
    forall k | k in held && k < NBUF ensures !b'[k].Caches(n) {
      assert b'[k].Core() == b[k].Core();
    }
  }

  lemma ApartAvoids(b: seq<Buf>, b': seq<Buf>, held: set<nat>, l: Layout, bs: seq<nat>, n: nat)
    requires Apart(b, held, l, bs) && HeldSame(b, b', held) && (l.Holds(n) || n in bs)
    ensures Avoids(b', held, n)
  {
    AvoidsStill(b, b', held, n);
  }

  lemma HeldSameTwice(b: seq<Buf>, b1: seq<Buf>, b2: seq<Buf>, held: set<nat>)
    requires HeldSame(b, b1, held) && HeldSame(b1, b2, held)
    ensures HeldSame(b, b2, held)
  {
    forall k | k in held && k < NBUF ensures b2[k].Core() == b[k].Core() {
      assert b2[k].Core() == b1[k].Core();
    }
  }

  /** One buffer that is not in `held` has changed. */
  lemma HeldSameBut(b: seq<Buf>, b': seq<Buf>, held: set<nat>, k: nat)
    requires |b'| == |b| == NBUF + 1 && k !in held
    requires forall j :: 0 <= j < NBUF && j != k ==> b'[j].Core() == b[j].Core()
    ensures HeldSame(b, b', held)
  {
  }

  lemma HeldSameFewer(b: seq<Buf>, b': seq<Buf>, held: set<nat>, k: nat)
    requires HeldSame(b, b', held + {k})
    ensures HeldSame(b, b', held)
  {
  }

  lemma AvoidsMore(b: seq<Buf>, held: set<nat>, k: nat, n: nat)
    requires Avoids(b, held, n) && k < NBUF && k < |b| && !b[k].Caches(n)
    ensures Avoids(b, held + {k}, n)
  {
  }

  lemma PinnedCached(b: seq<Buf>, home: map<nat, nat>, n: nat)
    requires n in PinnedSet(b, home)
    ensures n in home
  {
  }

  ghost function InUse(b: seq<Buf>): set<nat>
    requires |b| == NBUF + 1
  {
    set k: nat | k in Below(NBUF) && b[k].refcnt > 0
  }

  /** The buffers that hold pinned blocks. */
  ghost function PinnedBufs(b: seq<Buf>, home: map<nat, nat>): set<nat> {
    Image(home, PinnedSet(b, home))
  }

  lemma BusyIff(b: seq<Buf>, disk: Disk, view: Disk, home: map<nat, nat>, k: nat)
    requires Coherent(b, disk, view, home) && k < NBUF
    ensures k in PinnedBufs(b, home) + InUse(b) <==> !b[k].Recyclable()
  {
    hide Below;
    assert BufOk(b[k], k, view, home);
    if b[k].dirty {
      assert b[k].blockno in PinnedSet(b, home);
    }
  }

  lemma BusyInRange(b: seq<Buf>, disk: Disk, view: Disk, home: map<nat, nat>)
    requires Coherent(b, disk, view, home)
    ensures PinnedBufs(b, home) + InUse(b) <= Below(NBUF)
  {
    hide Below;
  }

  /** bget finds a victim exactly while fewer than NBUF buffers are pinned or in use. */
  lemma VictimIff(b: seq<Buf>, disk: Disk, view: Disk, home: map<nat, nat>)
    requires Coherent(b, disk, view, home)
    ensures (exists k :: 0 <= k < NBUF && b[k].Recyclable()) <==> |PinnedBufs(b, home) + InUse(b)| < NBUF
  {
    hide Below, PinnedBufs, InUse, BufOk;
    var busy := PinnedBufs(b, home) + InUse(b);
    BusyInRange(b, disk, view, home);
    forall k: nat | k < NBUF ensures k in busy <==> !b[k].Recyclable() {
      BusyIff(b, disk, view, home, k);
    }
    hide Coherent;
    if k: nat :| k < NBUF && b[k].Recyclable() {
      SubsetIsNoLarger(busy, Below(NBUF) - {k});
    } else {
      SubsetIsNoLarger(Below(NBUF), busy);
    }
  }

  /** Distinct blocks are pinned in distinct buffers, so when all buffers are pinned or in use, no other
      block is cached and there is no victim. */
  lemma PinsFill(b: seq<Buf>, disk: Disk, view: Disk, home: map<nat, nat>, n: nat)
    requires Coherent(b, disk, view, home) && PinnedBufs(b, home) !! InUse(b)
    requires |PinnedSet(b, home)| + |InUse(b)| >= NBUF
    ensures forall k :: 0 <= k < NBUF ==> !b[k].Recyclable()
    ensures n in home ==> n in PinnedSet(b, home) || home[n] in InUse(b)
  {
    hide Below, InUse, BufOk;
    ImageOfInjection(home, PinnedSet(b, home));
    var busy := PinnedBufs(b, home) + InUse(b);
    assert |busy| == |PinnedBufs(b, home)| + |InUse(b)|;
    BusyInRange(b, disk, view, home);
    VictimIff(b, disk, view, home);
    if n in home && home[n] !in busy {
      SubsetIsNoLarger(busy, Below(NBUF) - {home[n]});
    }
    assert n in home && home[n] in PinnedBufs(b, home) ==> n in PinnedSet(b, home);
  }

  /** Taking a clean buffer over for block n changes neither the pinned blocks nor another block's buffer. */
  lemma MissKeepsPins(b: seq<Buf>, disk: Disk, view: Disk, home: map<nat, nat>, k: nat, n: nat, x: Buf)
    requires Coherent(b, disk, view, home) && k < NBUF && n !in home && b[k].Recyclable() && !x.dirty
    ensures PinnedSet(b[k := x], Rehomed(home, b[k], n, k)) == PinnedSet(b, home)
    ensures n !in PinnedSet(b, home)
    ensures forall m :: m in Rehomed(home, b[k], n, k) && Rehomed(home, b[k], n, k)[m] == k ==> m == n
  {
    assert BufOk(b[k], k, view, home);
  }

  /** Changes to the contents or the dirty bit of one cached buffer. */
  lemma TouchKeepsHolders(b: seq<Buf>, disk: Disk, view: Disk, home: map<nat, nat>, k: nat, x: Buf, held: set<nat>)
    requires Coherent(b, disk, view, home) && OnlyHeld(b, held) && k < NBUF && b[k].valid
    requires x == b[k].(data := x.data, dirty := x.dirty)
    ensures OnlyHeld(b[k := x], held)
    ensures x.dirty == b[k].dirty ==> PinnedSet(b[k := x], home) == PinnedSet(b, home)
    ensures x.dirty ==> PinnedSet(b[k := x], home) == PinnedSet(b, home) + {x.blockno}
  {
    assert BufOk(b[k], k, view, home);
  }

  lemma UnpinnedAgrees(b: seq<Buf>, disk: Disk, view: Disk, home: map<nat, nat>)
    requires Coherent(b, disk, view, home)
    ensures |view| == |disk| && forall n :: 0 <= n < |disk| && n !in PinnedSet(b, home) ==> view[n] == disk[n]
  {
  }

  lemma UnpinnedBlock(b: seq<Buf>, disk: Disk, view: Disk, home: map<nat, nat>, n: nat)
    requires Coherent(b, disk, view, home) && n < |disk| && n !in PinnedSet(b, home)
    ensures |view| == |disk| && view[n] == disk[n]
  {
  }

  ghost function Members(q: seq<nat>): set<nat> {
    set x | x in q
  }

  lemma DropFirst(q: seq<nat>, i: nat)
    requires i < |q| && forall i, j :: 0 <= i < j < |q| ==> q[i] != q[j]
    ensures q[i] in Members(q[i..]) && Members(q[i..]) - {q[i]} == Members(q[i + 1..]) && |Members(q[i..])| == |q| - i
  {
    DistinctLength(q[i..]);
    assert q[i..][0] == q[i] && q[i..][1..] == q[i + 1..];
    assert Members(q[i..]) == Members(q[i + 1..]) + {q[i]};
  }

  /** What the logical disk holds at each of the blocks bs. */
  ghost function ContentsAt(view: Disk, bs: seq<nat>): (cs: seq<Block>)
    requires forall i :: 0 <= i < |bs| ==> bs[i] < |view|
    ensures |cs| == |bs|
  {
    seq(|bs|, i requires 0 <= i < |bs| => view[bs[i]])
  }

  /** Writing log slots does not disturb the home blocks still to be copied. */
  lemma SlotsMissHome(v: Disk, l: Layout, bs: seq<nat>, cs: seq<Block>, k: nat)
    requires l.Fits(v) && l.Loggable(bs, v) && k < |bs| && cs == ContentsAt(v, bs)
    ensures Patch(v, LogSlots(l, |bs|), cs, k)[bs[k]] == cs[k]
  {
    PatchMisses(v, LogSlots(l, |bs|), cs, k, bs[k]);
  }

  /** Writing home blocks does not disturb the log slots still to be copied. */
  lemma HomeMissesSlots(v: Disk, l: Layout, bs: seq<nat>, cs: seq<Block>, k: nat)
    requires l.Fits(v) && l.Loggable(bs, v) && k < |bs| && cs == LogCopies(v, l, |bs|)
    ensures Patch(v, bs, cs, k)[l.start + 1 + k] == cs[k]
  {
    PatchMisses(v, bs, cs, k, l.start + 1 + k);
  }

  /** A logical disk that differs from the disk at most at bs is the disk with those blocks written. */
  lemma PinnedIsPatch(d: Disk, v: Disk, bs: seq<nat>)
    requires |v| == |d| && (forall i :: 0 <= i < |bs| ==> bs[i] < |d|)
    requires forall i, j :: 0 <= i < j < |bs| ==> bs[i] != bs[j]
    requires forall n :: 0 <= n < |d| && n !in bs ==> v[n] == d[n]
    ensures Patch(d, bs, ContentsAt(v, bs), |bs|) == v
  {
    var cs := ContentsAt(v, bs);
    forall n | 0 <= n < |d| ensures Patch(d, bs, cs, |bs|)[n] == v[n] {
      if n in bs {
        var i :| 0 <= i < |bs| && bs[i] == n;
        PatchHits(d, bs, cs, |bs|, i);
      } else {
        PatchMisses(d, bs, cs, |bs|, n);
      }
    }
  }

  /** The last disk of a commit holds the logical disk in its home blocks and an empty header. */
  lemma CommitReachesView(d: Disk, l: Layout, v: Disk, bs: seq<nat>)
    requires l.Fits(d) && |v| == |d| && l.Loggable(bs, d) && forall n :: 0 <= n < |d| && n !in bs ==> v[n] == d[n]
    ensures var t := WholeCommit(d, l, bs, ContentsAt(v, bs));
            l.Fits(t[|t| - 1]) && HeaderCount(t[|t| - 1][l.start]) == 0 && SameHome(t[|t| - 1], v, l)
  {
    var cs := ContentsAt(v, bs);
    PinnedIsPatch(d, v, bs);
    hide Promised, Patch, RecoverTrace, ContentsAt, CommitTrace, Committed;
    HeaderWriteCommits(d, l, bs, cs);
    RecoveryDelivers(Committed(d, l, bs, cs), l);
  }

  /** One more block, unless it is there already. */
  lemma AbsorbedFits(l: Layout, bs: seq<nat>, n: nat, d: Disk)
    requires l.Loggable(bs, d) && n < |d| && !l.Holds(n) && |bs| < LOGSIZE && |bs| + 1 < l.size
    ensures var bs' := if n in bs then bs else bs + [n]; l.Loggable(bs', d) && Members(bs') == Members(bs) + {n}
  {
  }

  lemma CommittedIsReadable(d: Disk, l: Layout, bs: seq<nat>, cs: seq<Block>)
    requires l.Fits(d) && |bs| == |cs| && l.Loggable(bs, d)
    ensures Readable(Committed(d, l, bs, cs), l)
    ensures Targets(Committed(d, l, bs, cs)[l.start]) == bs
    ensures WholeCommit(d, l, bs, cs) == CommitTrace(d, l, bs, cs) + RecoverTrace(Committed(d, l, bs, cs), l)
  {
    CommittedDisk(d, l, bs, cs);
  }

  class Journal {
    const cache: BCache
    const layout: Layout
    var lh: seq<nat>                // log.lh.block[0 .. log.lh.n]
    var outstanding: nat

    ghost predicate Usable()
      reads cache
    {
      cache.Valid() && layout.Fits(cache.memdisk)
    }

    constructor (c: BCache, l: Layout)
      ensures cache == c && layout == l && lh == [] && outstanding == 0
    {
      cache, layout, lh, outstanding := c, l, [], 0;
    }

    /** bread for a caller that already holds the buffers in `held`. */
    method Fetch(n: nat, ghost held: set<nat>) returns (k: nat)
      requires Usable() && n < |cache.memdisk| && OnlyHeld(cache.buf, held) && Avoids(cache.buf, held, n)
      requires n in cache.home || |PinnedSet(cache.buf, cache.home)| + |held| < NBUF
      modifies cache`buf, cache`home, cache`users, cache`memdisk, cache`trace, cache`view
      ensures Usable() && OnlyHeld(cache.buf, held + {k}) && k < NBUF && |cache.buf| == NBUF + 1 && k !in held
      ensures n < |cache.view| == |cache.memdisk|
      ensures cache.memdisk == old(cache.memdisk) && cache.trace == old(cache.trace) && cache.view == old(cache.view)
      ensures var x := cache.buf[k];
              && x.valid && x.locked && x.Caches(n) && x.refcnt == 1 && x.data == cache.view[n]
              && x.dirty == (n in old(PinnedSet(cache.buf, cache.home)))
      ensures HeldSame(old(cache.buf), cache.buf, held)
      ensures PinnedSet(cache.buf, cache.home) == old(PinnedSet(cache.buf, cache.home))
      ensures forall m :: m in cache.home && cache.home[m] == k ==> m == n
    {
      AvoidsHome(cache.buf, cache.memdisk, cache.view, cache.home, held, n);
      if n in cache.home {
        assert BufOk(cache.buf[cache.home[n]], cache.home[n], cache.view, cache.home);
      } else {
        VictimExists(cache.buf, cache.memdisk, cache.view, cache.home, held);
      }
      hide Linked, InReleaseOrder, Counted, Rehomed;
      var r := cache.Bread(n);
      k := r.value;
      if n !in old(cache.home) {
        MissKeepsPins(old(cache.buf), cache.memdisk, cache.view, old(cache.home), k, n, cache.buf[k]);
      }
    }

    /** brelse by the only user of buffer k. */
    method Drop(k: nat, ghost held: set<nat>)
      requires Usable() && k in held && k < NBUF && OnlyHeld(cache.buf, held)
      requires cache.buf[k].locked && cache.buf[k].valid && cache.buf[k].data == cache.view[cache.buf[k].blockno]
      modifies cache`buf, cache`order, cache`stamp, cache`clock, cache`users
      ensures Usable() && OnlyHeld(cache.buf, held - {k}) && |cache.buf| == |old(cache.buf)| == NBUF + 1
      ensures forall j :: 0 <= j < NBUF && j != k ==> cache.buf[j].Core() == old(cache.buf[j]).Core()
      ensures PinnedSet(cache.buf, cache.home) == old(PinnedSet(cache.buf, cache.home))
    {
      hide Linked, InReleaseOrder, Counted;
      ghost var b := cache.buf[k := cache.buf[k].(locked := false, refcnt := cache.buf[k].refcnt - 1)];
      assert PinnedSet(b, cache.home) == PinnedSet(cache.buf, cache.home);
      cache.Brelse(k);
      RelinkKeepsPins(b, cache.buf, cache.home);
      forall j | 0 <= j < NBUF
        ensures cache.buf[j].refcnt == (if j in held - {k} then 1 else 0)
        ensures j != k ==> cache.buf[j].Core() == old(cache.buf[j]).Core()
      {
        assert cache.buf[j].Core() == b[j].Core();
      }
    }

    /** memmove into a held buffer followed by bwrite. */
    method WriteThrough(k: nat, data: Block, ghost held: set<nat>)
      requires Usable() && k < NBUF && cache.buf[k].locked && cache.buf[k].valid && OnlyHeld(cache.buf, held)
      modifies cache`buf, cache`memdisk, cache`trace, cache`view
      ensures Usable() && OnlyHeld(cache.buf, held)
      ensures var n := old(cache.buf[k]).blockno;
              && n < |old(cache.memdisk)| == |old(cache.view)|
              && cache.buf == old(cache.buf)[k := old(cache.buf[k]).(data := data, dirty := false)]
              && cache.memdisk == old(cache.memdisk)[n := data] && cache.trace == old(cache.trace) + [cache.memdisk]
              && cache.view == old(cache.view)[n := data]
              && PinnedSet(cache.buf, cache.home) == old(PinnedSet(cache.buf, cache.home)) - {n}
    {
      hide Linked, InReleaseOrder, Counted;
      assert BufOk(cache.buf[k], k, cache.view, cache.home);
      cache.Store(k, data);
      cache.Bwrite(k);
    }

    /** The body of both copying loops: read two blocks in order, copy one over the other, write it. Others
        hold the buffers in `held`. */
    method CopyBlock(first: nat, second: nat, toFirst: bool, ghost held: set<nat>)
      requires Usable() && first < |cache.memdisk| && second < |cache.memdisk| && first != second
      requires OnlyHeld(cache.buf, held) && Avoids(cache.buf, held, first) && Avoids(cache.buf, held, second)
      requires first in cache.home || |PinnedSet(cache.buf, cache.home)| + |held| < NBUF
      requires second in PinnedSet(cache.buf, cache.home) || |PinnedSet(cache.buf, cache.home)| + |held| + 1 < NBUF
      modifies cache
      ensures Usable() && OnlyHeld(cache.buf, held) && HeldSame(old(cache.buf), cache.buf, held)
      ensures var (src, dst) := if toFirst then (second, first) else (first, second);
              && cache.memdisk == old(cache.memdisk)[dst := old(cache.view)[src]]
              && cache.trace == old(cache.trace) + [cache.memdisk]
              && cache.view == old(cache.view)[dst := old(cache.view)[src]]
              && PinnedSet(cache.buf, cache.home) == old(PinnedSet(cache.buf, cache.home)) - {dst}
    {
      hide Coherent, Linked, InReleaseOrder, Counted, BufOk, OnlyHeld, PinnedSet, HeldSame, Avoids;
      var a, b := FetchTwo(first, second, held);
      ghost var b1 := cache.buf;
      var to, from := if toFirst then a else b, if toFirst then b else a;
      assert held + {a} + {b} == held + {to} + {from};
      WriteAndDrop(to, cache.buf[from].data, from, held);
      HeldSameTwice(old(cache.buf), b1, cache.buf, held);
    }

    /** The two breads at the head of the body. */
    method FetchTwo(first: nat, second: nat, ghost held: set<nat>) returns (a: nat, b: nat)
      requires Usable() && first < |cache.memdisk| && second < |cache.memdisk| && first != second
      requires OnlyHeld(cache.buf, held) && Avoids(cache.buf, held, first) && Avoids(cache.buf, held, second)
      requires first in cache.home || |PinnedSet(cache.buf, cache.home)| + |held| < NBUF
      requires second in PinnedSet(cache.buf, cache.home) || |PinnedSet(cache.buf, cache.home)| + |held| + 1 < NBUF
      modifies cache
      ensures Usable() && OnlyHeld(cache.buf, held + {a} + {b}) && HeldSame(old(cache.buf), cache.buf, held)
      ensures cache.memdisk == old(cache.memdisk) && cache.trace == old(cache.trace) && cache.view == old(cache.view)
      ensures PinnedSet(cache.buf, cache.home) == old(PinnedSet(cache.buf, cache.home))
      ensures a < NBUF && b < NBUF && |cache.buf| == NBUF + 1 && a != b && a !in held && b !in held
      ensures Ready(cache.buf[a], first) && Ready(cache.buf[b], second)
    {
      hide Coherent, Linked, InReleaseOrder, Counted, BufOk, OnlyHeld, PinnedSet, HeldSame, Avoids;
      ghost var b0 := cache.buf;
      a := Fetch(first, held);
      ghost var b1 := cache.buf;
      AvoidsStill(b0, b1, held, second);
      AvoidsMore(b1, held, a, second);
      if second in PinnedSet(b1, cache.home) {
        PinnedCached(b1, cache.home, second);
      }
      b := Fetch(second, held + {a});
      KeptReady(b1, cache.buf, held, a);
      HeldSameFewer(b1, cache.buf, held, a);
      HeldSameTwice(b0, b1, cache.buf, held);
    }

    /** What bread returns: the buffer of block n, locked, with the contents the block has for its reader. */
    ghost predicate Ready(x: Buf, n: nat)
      reads cache`view
    {
      x.valid && x.locked && x.Caches(n) && n < |cache.view| && x.data == cache.view[n]
    }

    /** memmove, bwrite and the two brelses at its end. */
    method WriteAndDrop(to: nat, data: Block, from: nat, ghost held: set<nat>)
      requires Usable() && OnlyHeld(cache.buf, held + {to} + {from}) && to !in held && from !in held && to != from
      requires to < NBUF && from < NBUF && |cache.buf| == NBUF + 1
      requires Ready(cache.buf[to], cache.buf[to].blockno) && Ready(cache.buf[from], cache.buf[from].blockno)
      requires cache.buf[to].blockno != cache.buf[from].blockno && cache.buf[to].blockno < |cache.memdisk|
      modifies cache
      ensures Usable() && OnlyHeld(cache.buf, held) && HeldSame(old(cache.buf), cache.buf, held)
      ensures var n := old(cache.buf[to]).blockno;
              && n < |old(cache.memdisk)| == |old(cache.view)|
              && cache.memdisk == old(cache.memdisk)[n := data] && cache.trace == old(cache.trace) + [cache.memdisk]
              && cache.view == old(cache.view)[n := data]
              && PinnedSet(cache.buf, cache.home) == old(PinnedSet(cache.buf, cache.home)) - {n}
    {
      hide Coherent, Linked, InReleaseOrder, Counted, BufOk, OnlyHeld, PinnedSet, HeldSame, Avoids;
      ghost var b0 := cache.buf;
      WriteThrough(to, data, held + {to} + {from});
      ghost var b1 := cache.buf;
      HeldSameBut(b0, b1, held, to);
      Drop(from, held + {to} + {from});
      ghost var b2 := cache.buf;
      HeldSameBut(b1, b2, held, from);
      assert b2[to].Core() == b1[to].Core();
      assert held + {to} + {from} - {from} == held + {to};
      Drop(to, held + {to});
      HeldSameBut(b2, cache.buf, held, to);
      assert held + {to} - {to} == held;
      HeldSameTwice(b0, b1, b2, held);
      HeldSameTwice(b0, b2, cache.buf, held);
    }

    lemma KeptReady(b: seq<Buf>, b': seq<Buf>, held: set<nat>, k: nat)
      requires HeldSame(b, b', held + {k}) && k < NBUF
      ensures b'[k].Core() == b[k].Core()
    {
    }

    /** Since a moment when the disk was d, the logical disk v and the trace t0, exactly the first k
        of the block writes cs to bs have been made. */
    ghost predicate Wrote(d: Disk, v: Disk, t0: seq<Disk>, bs: seq<nat>, cs: seq<Block>, k: nat)
      requires k <= |bs| == |cs| && |d| == |v| && forall i :: 0 <= i < |bs| ==> bs[i] < |d|
      reads cache
    {
      && cache.memdisk == Patch(d, bs, cs, k)
      && cache.view == Patch(v, bs, cs, k)
      && cache.trace == t0 + PatchTrace(d, bs, cs, k)
    }

    /** Others hold the buffers in `held`, as they did when the buffers were b0, and use no block of the log and
        none of those logged. */
    ghost predicate Beside(held: set<nat>, b0: seq<Buf>)
      reads this`lh, cache
    {
      OnlyHeld(cache.buf, held) && HeldSame(b0, cache.buf, held) && Apart(b0, held, layout, lh)
    }

    /** One iteration of a copying loop. */
    method CopyNext(first: nat, second: nat, toFirst: bool, ghost k: nat, ghost d: Disk, ghost v: Disk,
                    ghost t0: seq<Disk>, ghost bs: seq<nat>, ghost cs: seq<Block>, ghost held: set<nat>,
                    ghost b0: seq<Buf>)
      requires Usable() && first < |d| && second < |d| && first != second && Beside(held, b0)
      requires layout.Holds(first) && second in lh && |PinnedSet(cache.buf, cache.home)| + |held| < NBUF
      requires second in PinnedSet(cache.buf, cache.home) || |PinnedSet(cache.buf, cache.home)| + |held| + 1 < NBUF
      requires k < |bs| == |cs| && |d| == |v| && (forall i :: 0 <= i < |bs| ==> bs[i] < |d|)
      requires Wrote(d, v, t0, bs, cs, k) && bs[k] == if toFirst then first else second
      requires cs[k] == Patch(v, bs, cs, k)[if toFirst then second else first]
      modifies cache
      ensures Usable() && Beside(held, b0) && Wrote(d, v, t0, bs, cs, k + 1)
      ensures PinnedSet(cache.buf, cache.home) == old(PinnedSet(cache.buf, cache.home)) - {bs[k]}
    {
      hide Coherent, Linked, InReleaseOrder, Counted, PinnedSet, OnlyHeld, HeldSame, Apart, Avoids;
      ghost var b1 := cache.buf;
      ApartAvoids(b0, b1, held, layout, lh, first);
      ApartAvoids(b0, b1, held, layout, lh, second);
      CopyBlock(first, second, toFirst, held);
      HeldSameTwice(b0, b1, cache.buf, held);
    }

    /** Between two iterations of write_log: the first k log slots hold the new block contents. */
    ghost predicate Logging(d: Disk, v: Disk, t0: seq<Disk>, cs: seq<Block>, k: nat, held: set<nat>, b0: seq<Buf>)
      reads this, cache
    {
      && Usable() && Beside(held, b0) && PinnedSet(cache.buf, cache.home) == Members(lh) && |lh| + |held| < NBUF
      && |v| == |d| && layout.Fits(d) && layout.Loggable(lh, d) && cs == ContentsAt(v, lh) && k <= |lh|
      && Wrote(d, v, t0, LogSlots(layout, |lh|), cs, k)
    }

    method LogNext(tail: nat, ghost d: Disk, ghost v: Disk, ghost t0: seq<Disk>, ghost cs: seq<Block>,
                   ghost held: set<nat>, ghost b0: seq<Buf>)
      requires tail < |lh| && Logging(d, v, t0, cs, tail, held, b0)
      modifies cache
      ensures Logging(d, v, t0, cs, tail + 1, held, b0)
    {
      hide Coherent, Linked, InReleaseOrder, Counted, PinnedSet, Beside, Patch, PatchTrace, ContentsAt, Wrote, Usable;
      SlotsMissHome(v, layout, lh, cs, tail);
      DistinctLength(lh);
      CopyNext(layout.start + 1 + tail, lh[tail], true, tail, d, v, t0, LogSlots(layout, |lh|), cs, held, b0);
    }

    /** Copy every logged block from the cache to its log slot. */
    method WriteLog(ghost d: Disk, ghost v: Disk, ghost t0: seq<Disk>, ghost cs: seq<Block>,
                    ghost held: set<nat>, ghost b0: seq<Buf>)
      requires Logging(d, v, t0, cs, 0, held, b0)
      modifies cache
      ensures Logging(d, v, t0, cs, |lh|, held, b0)
    {
      hide Logging;
      for tail := 0 to |lh|
        invariant Logging(d, v, t0, cs, tail, held, b0)
      {
        LogNext(tail, d, v, t0, cs, held, b0);
      }
    }

    /** Between two iterations of install_trans: the first k logged blocks are home and unpinned. */
    ghost predicate Installing(d: Disk, v: Disk, t0: seq<Disk>, cs: seq<Block>, k: nat, held: set<nat>, b0: seq<Buf>)
      reads this, cache
    {
      && Usable() && Beside(held, b0) && k <= |lh| && |held| + 1 < NBUF
      && (|| PinnedSet(cache.buf, cache.home) == {}
          || (PinnedSet(cache.buf, cache.home) == Members(lh[k..]) && |lh| + |held| < NBUF))
      && |v| == |d| && layout.Fits(v) && layout.Loggable(lh, v) && cs == LogCopies(v, layout, |lh|)
      && Wrote(d, v, t0, lh, cs, k)
    }

    method InstallNext(tail: nat, ghost d: Disk, ghost v: Disk, ghost t0: seq<Disk>, ghost cs: seq<Block>,
                       ghost held: set<nat>, ghost b0: seq<Buf>)
      requires tail < |lh| && Installing(d, v, t0, cs, tail, held, b0)
      modifies cache
      ensures Installing(d, v, t0, cs, tail + 1, held, b0)
    {
      hide Coherent, Linked, InReleaseOrder, Counted, PinnedSet, Beside, Patch, PatchTrace, Wrote, Usable, Members;
      HomeMissesSlots(v, layout, lh, cs, tail);
      DropFirst(lh, tail);
      CopyNext(layout.start + 1 + tail, lh[tail], false, tail, d, v, t0, lh, cs, held, b0);
    }

    /** Copy every log slot to the home location of its block. */
    method InstallTrans(ghost d: Disk, ghost v: Disk, ghost t0: seq<Disk>, ghost cs: seq<Block>,
                        ghost held: set<nat>, ghost b0: seq<Buf>)
      requires Installing(d, v, t0, cs, 0, held, b0)
      modifies cache
      ensures Installing(d, v, t0, cs, |lh|, held, b0)
    {
      hide Installing;
      for tail := 0 to |lh|
        invariant Installing(d, v, t0, cs, tail, held, b0)
      {
        InstallNext(tail, d, v, t0, cs, held, b0);
      }
    }

    /** Store the in-memory header in the header block: one block write. */
    method WriteHead(ghost held: set<nat>, ghost b0: seq<Buf>)
      requires Usable() && Beside(held, b0) && |PinnedSet(cache.buf, cache.home)| + |held| < NBUF
      requires layout.start !in PinnedSet(cache.buf, cache.home) && |cache.view| == |cache.memdisk|
      requires |lh| <= LOGSIZE && forall i :: 0 <= i < |lh| ==> lh[i] < WORD_MOD
      modifies cache
      ensures Usable() && Beside(held, b0)
      ensures PinnedSet(cache.buf, cache.home) == old(PinnedSet(cache.buf, cache.home))
      ensures cache.memdisk == HeaderWritten(old(cache.memdisk), layout, lh)
      ensures cache.trace == old(cache.trace) + [cache.memdisk]
      ensures layout.Fits(old(cache.view)) && cache.view == HeaderWritten(old(cache.view), layout, lh)
    {
      hide Coherent, Linked, InReleaseOrder, Counted, PinnedSet, OnlyHeld, PutHeader, Avoids, Apart, HeldSame;
      UnpinnedBlock(cache.buf, cache.memdisk, cache.view, cache.home, layout.start);
      ghost var b1 := cache.buf;
      ApartAvoids(b0, b1, held, layout, lh, layout.start);
      var k := Fetch(layout.start, held);
      ghost var b2 := cache.buf;
      HeldSameTwice(b0, b1, b2, held);
      var h := EncodeHeader(cache.buf[k].data);
      PutBlock(k, h, held);
      HeldSameTwice(b0, b2, cache.buf, held);
    }

    /** bwrite and brelse of one buffer. */
    method PutBlock(k: nat, data: Block, ghost held: set<nat>)
      requires Usable() && OnlyHeld(cache.buf, held + {k}) && k !in held && k < NBUF && |cache.buf| == NBUF + 1
      requires cache.buf[k].locked && cache.buf[k].valid
      modifies cache
      ensures Usable() && OnlyHeld(cache.buf, held) && HeldSame(old(cache.buf), cache.buf, held)
      ensures var n := old(cache.buf[k]).blockno;
              && n < |old(cache.memdisk)| == |old(cache.view)|
              && cache.memdisk == old(cache.memdisk)[n := data] && cache.trace == old(cache.trace) + [cache.memdisk]
              && cache.view == old(cache.view)[n := data]
              && PinnedSet(cache.buf, cache.home) == old(PinnedSet(cache.buf, cache.home)) - {n}
    {
      hide Coherent, Linked, InReleaseOrder, Counted, PinnedSet, OnlyHeld, HeldSame;
      ghost var b0 := cache.buf;
      WriteThrough(k, data, held + {k});
      ghost var b1 := cache.buf;
      HeldSameBut(b0, b1, held, k);
      Drop(k, held + {k});
      HeldSameBut(b1, cache.buf, held, k);
      assert held + {k} - {k} == held;
      HeldSameTwice(b0, b1, cache.buf, held);
    }

    /** The loop of write_head: n first, then the block numbers. */
    method EncodeHeader(old_h: Block) returns (h: Block)
      requires |lh| <= LOGSIZE && forall i :: 0 <= i < |lh| ==> lh[i] < WORD_MOD
      ensures h == PutHeader(old_h, lh)
    {
      h := SetWord(old_h, 0, |lh|);
      for i := 0 to |lh|
        invariant h == PutEntries(old_h, lh, i)
      {
        h := SetWord(h, i + 1, lh[i]);
      }
    }

    /** Load the in-memory header from the header block. */
    method ReadHead()
      requires Usable() && OnlyHeld(cache.buf, {}) && |PinnedSet(cache.buf, cache.home)| < NBUF
      requires |cache.view| == |cache.memdisk| && HeaderCount(cache.view[layout.start]) <= LOGSIZE
      modifies cache, this`lh
      ensures Usable() && OnlyHeld(cache.buf, {})
      ensures PinnedSet(cache.buf, cache.home) == old(PinnedSet(cache.buf, cache.home))
      ensures cache.memdisk == old(cache.memdisk) && cache.trace == old(cache.trace) && cache.view == old(cache.view)
      ensures lh == Targets(cache.view[layout.start])
    {
      hide Coherent, Linked, InReleaseOrder, Counted, PinnedSet, OnlyHeld;
      var k := Fetch(layout.start, {});
      lh := DecodeHeader(cache.buf[k].data);
      Drop(k, {} + {k});
    }

    /** install_trans, then an empty header: the tail of commit() and of recover_from_log(). */
    method ApplyLog(ghost held: set<nat>, ghost b0: seq<Buf>)
      requires Usable() && Beside(held, b0) && Readable(cache.memdisk, layout) && |held| + 1 < NBUF
      requires lh == Targets(cache.memdisk[layout.start])
      requires || PinnedSet(cache.buf, cache.home) == {}
               || (PinnedSet(cache.buf, cache.home) == Members(lh) && |lh| + |held| < NBUF)
      modifies cache, this`lh
      ensures Usable() && Beside(held, b0) && PinnedSet(cache.buf, cache.home) == {} && lh == []
      ensures cache.trace == old(cache.trace) + RecoverTrace(old(cache.memdisk), layout)
      ensures cache.memdisk == cache.view == cache.trace[|cache.trace| - 1]
    {
      hide Coherent, Linked, InReleaseOrder, Counted, PinnedSet, OnlyHeld, HeldSame, Avoids, Patch, PatchTrace;
      hide LogCopies;
      ghost var d, v, t0 := cache.memdisk, cache.view, cache.trace;
      ghost var cs := LogCopies(d, layout, |lh|);
      StartInstalling(cs, held, b0);
      assert lh[|lh|..] == [];
      InstallTrans(d, v, t0, cs, held, b0);
      assert PinnedSet(cache.buf, cache.home) == {};
      lh := [];
      WriteHead(held, b0);
      UnpinnedAgrees(cache.buf, cache.memdisk, cache.view, cache.home);
    }

    lemma StartInstalling(cs: seq<Block>, held: set<nat>, b0: seq<Buf>)
      requires Usable() && Beside(held, b0) && Readable(cache.memdisk, layout) && |held| + 1 < NBUF
      requires lh == Targets(cache.memdisk[layout.start]) && cs == LogCopies(cache.memdisk, layout, |lh|)
      requires || PinnedSet(cache.buf, cache.home) == {}
               || (PinnedSet(cache.buf, cache.home) == Members(lh) && |lh| + |held| < NBUF)
      ensures Installing(cache.memdisk, cache.view, cache.trace, cs, 0, held, b0)
    {
      UnpinnedAgrees(cache.buf, cache.memdisk, cache.view, cache.home);
      hide Coherent, Linked, InReleaseOrder, Counted, PinnedSet, Beside;
      assert cs == LogCopies(cache.view, layout, |lh|);
      assert lh[0..] == lh;
    }

    /** Outside commit() and recovery: nothing is committed on disk that is not home, and exactly the
        logged blocks are pinned in the cache. */
    ghost predicate Valid()
      reads this`lh, cache
    {
      && Usable() && |cache.view| == |cache.memdisk|
      && layout.Loggable(lh, cache.memdisk)
      && PinnedSet(cache.buf, cache.home) == Members(lh)
      && HeaderCount(cache.memdisk[layout.start]) == 0
    }

    lemma ValidBasics()
      requires Valid()
      ensures |cache.view| == |cache.memdisk| && layout.Fits(cache.memdisk) && layout.Loggable(lh, cache.memdisk)
      ensures HeaderCount(cache.memdisk[layout.start]) == 0
    {
    }

    /** initlog's recovery, on a cache nobody has used. */
    method RecoverFromLog()
      requires Usable() && OnlyHeld(cache.buf, {}) && PinnedSet(cache.buf, cache.home) == {}
      requires cache.view == cache.memdisk && Readable(cache.memdisk, layout)
      modifies cache, this`lh
      ensures Valid() && OnlyHeld(cache.buf, {}) && lh == [] && cache.view == cache.memdisk
      ensures cache.trace == old(cache.trace) + RecoverTrace(old(cache.memdisk), layout)
      ensures Promises(old(cache.memdisk), layout, cache.memdisk)
    {
      hide Coherent, Linked, InReleaseOrder, Counted, PinnedSet, OnlyHeld, RecoverTrace, Promised;
      ghost var d := cache.memdisk;
      ReadHead();
      ghost var b0 := cache.buf;
      NobodyBeside();
      ApplyLog({}, b0);
      RecoveryDelivers(d, layout);
    }

    lemma NobodyBeside()
      requires OnlyHeld(cache.buf, {})
      ensures Beside({}, cache.buf)
    {
    }

    /** write_log and the header write: the transaction is on disk. */
    method CommitRecord(ghost cs: seq<Block>, ghost held: set<nat>, ghost b0: seq<Buf>)
      requires Valid() && Beside(held, b0) && |lh| + |held| < NBUF && cs == ContentsAt(cache.view, lh)
      modifies cache
      ensures Usable() && Beside(held, b0) && PinnedSet(cache.buf, cache.home) == Members(lh)
      ensures cache.memdisk == Committed(old(cache.memdisk), layout, lh, cs)
      ensures cache.trace == old(cache.trace) + CommitTrace(old(cache.memdisk), layout, lh, cs)
    {
      hide Coherent, Linked, InReleaseOrder, Counted, PinnedSet, Beside, Patch, PatchTrace, PutHeader, Valid;
      hide ContentsAt;
      ghost var d, v, t0 := cache.memdisk, cache.view, cache.trace;
      StartLogging(cs, held, b0);
      WriteLog(d, v, t0, cs, held, b0);
      DistinctLength(lh);
      WriteHead(held, b0);
    }

    lemma StartLogging(cs: seq<Block>, held: set<nat>, b0: seq<Buf>)
      requires Valid() && Beside(held, b0) && |lh| + |held| < NBUF && cs == ContentsAt(cache.view, lh)
      ensures Logging(cache.memdisk, cache.view, cache.trace, cs, 0, held, b0)
    {
      hide Coherent, Linked, InReleaseOrder, Counted, PinnedSet, Beside, ContentsAt;
    }

    /** commit() of a non-empty transaction. */
    method CommitLogged(ghost cs: seq<Block>, ghost held: set<nat>, ghost b0: seq<Buf>)
      requires Valid() && Beside(held, b0) && 0 < |lh| && |lh| + |held| < NBUF && cs == ContentsAt(cache.view, lh)
      modifies cache, this`lh
      ensures Usable() && Beside(held, b0) && PinnedSet(cache.buf, cache.home) == {} && lh == []
      ensures cache.trace == old(cache.trace) + WholeCommit(old(cache.memdisk), layout, old(lh), cs)
      ensures cache.memdisk == cache.view == cache.trace[|cache.trace| - 1]
    {
      CommittedIsReadable(cache.memdisk, layout, lh, cs);
      hide *;
      ghost var t0, d, bs := cache.trace, cache.memdisk, lh;
      CommitRecord(cs, held, b0);
      ApplyLog(held, b0);
      Sequences.Assoc(t0, CommitTrace(d, layout, bs, cs), RecoverTrace(Committed(d, layout, bs, cs), layout));
    }

    /** commit(), while others hold the buffers in `held` of other blocks: every disk state on the way is one of
        the commit trace, and at the end the home blocks on disk are the logical disk of the transaction. */
    method Commit(ghost held: set<nat>)
      requires Valid() && OnlyHeld(cache.buf, held) && Apart(cache.buf, held, layout, lh) && |lh| + |held| < NBUF
      modifies cache, this`lh
      ensures Valid() && OnlyHeld(cache.buf, held) && HeldSame(old(cache.buf), cache.buf, held) && lh == []
      ensures SameHome(cache.memdisk, old(cache.view), layout) && SameHome(cache.view, old(cache.view), layout)
      ensures var d, cs := old(cache.memdisk), ContentsAt(old(cache.view), old(lh));
              cache.trace == old(cache.trace) + if old(lh) == [] then [] else WholeCommit(d, layout, old(lh), cs)
    {
      UnpinnedAgrees(cache.buf, cache.memdisk, cache.view, cache.home);
      CommitReachesView(cache.memdisk, layout, cache.view, lh);
      hide Coherent, Linked, InReleaseOrder, Counted, PinnedSet, OnlyHeld, ContentsAt, WholeCommit, HeaderCount, Apart;
      if |lh| > 0 {
        CommitLogged(ContentsAt(cache.view, lh), held, cache.buf);
      }
    }

    /** bread, copy out, brelse, by a caller that holds the buffers in `held`: any block reads as the flat
        logical disk has it. */
    method Read(n: nat, ghost held: set<nat>) returns (data: Block)
      requires Valid() && n < |cache.memdisk| && OnlyHeld(cache.buf, held)
      requires Avoids(cache.buf, held, n)
      requires n in cache.home || |lh| + |held| < NBUF
      modifies cache
      ensures Valid() && OnlyHeld(cache.buf, held) && cache.memdisk == old(cache.memdisk)
      ensures cache.trace == old(cache.trace) && cache.view == old(cache.view) && data == cache.view[n]
    {
      hide Coherent, Linked, InReleaseOrder, Counted, PinnedSet, OnlyHeld;
      DistinctLength(lh);
      var k := Fetch(n, held);
      data := cache.buf[k].data;
      Drop(k, held + {k});
      assert held + {k} - {k} == held;
    }

    method ModifyAndLog(k: nat, data: Block, ghost held: set<nat>) returns (ok: bool)
      requires Valid() && OnlyHeld(cache.buf, held) && k < NBUF && cache.buf[k].locked && cache.buf[k].valid
      requires !layout.Holds(cache.buf[k].blockno)
      modifies cache`buf, cache`view, this`lh
      ensures ok <==> |old(lh)| < LOGSIZE && |old(lh)| + 1 < layout.size && outstanding >= 1
      ensures Valid() && OnlyHeld(cache.buf, held)
      ensures ok ==> var n := old(cache.buf[k]).blockno;
              && lh == (if n in old(lh) then old(lh) else old(lh) + [n])
              && n < |old(cache.view)| && cache.view == old(cache.view)[n := data]
              && cache.buf[k] == old(cache.buf[k]).(data := data, dirty := true)
    {
      TouchKeepsHolders(cache.buf, cache.memdisk, cache.view, cache.home, k, cache.buf[k].(data := data), held);
      assert BufOk(cache.buf[k], k, cache.view, cache.home);
      hide Coherent, BufOk, Linked, InReleaseOrder, Counted, PinnedSet, OnlyHeld;
      cache.Store(k, data);
      ok := LogWrite(k, held);
    }

    /** bread, modify, log_write, brelse: the logical disk changes at n, the disk not at all. */
    method Update(n: nat, data: Block, ghost held: set<nat>) returns (ok: bool)
      requires Valid() && n < |cache.memdisk| && !layout.Holds(n) && OnlyHeld(cache.buf, held)
      requires Avoids(cache.buf, held, n)
      requires n in cache.home || |lh| + |held| < NBUF
      modifies cache, this`lh
      ensures ok <==> |old(lh)| < LOGSIZE && |old(lh)| + 1 < layout.size && outstanding >= 1
      ensures ok ==> Valid() && OnlyHeld(cache.buf, held) && cache.memdisk == old(cache.memdisk)
      ensures ok ==> cache.trace == old(cache.trace)
      ensures ok ==> n < |old(cache.view)| && cache.view == old(cache.view)[n := data]
      ensures ok ==> lh == if n in old(lh) then old(lh) else old(lh) + [n]
    {
      hide Coherent, Linked, InReleaseOrder, Counted, PinnedSet, OnlyHeld;
      DistinctLength(lh);
      var k := Fetch(n, held);
      ok := ModifyAndLog(k, data, held + {k});
      if ok {
        Drop(k, held + {k});
        assert held + {k} - {k} == held;
      }
    }

    /** Record in the transaction that the holder of buffer k has changed it. false is a panic:
        "too big a transaction" or "log_write outside of trans". */
    method LogWrite(k: nat, ghost held: set<nat>) returns (ok: bool)
      requires Valid() && OnlyHeld(cache.buf, held) && k < NBUF && cache.buf[k].locked && cache.buf[k].valid
      requires !layout.Holds(cache.buf[k].blockno)
      modifies cache`buf, cache`view, this`lh
      ensures ok <==> |old(lh)| < LOGSIZE && |old(lh)| + 1 < layout.size && outstanding >= 1
      ensures Valid() && OnlyHeld(cache.buf, held)
      ensures ok ==> var n := cache.buf[k].blockno;
              && lh == (if n in old(lh) then old(lh) else old(lh) + [n])
              && cache.view == old(cache.view)[n := cache.buf[k].data]
              && cache.buf == old(cache.buf)[k := old(cache.buf[k]).(dirty := true)]
      ensures !ok ==> lh == old(lh) && cache.view == old(cache.view) && cache.buf == old(cache.buf)
    {
      assert |cache.buf| == NBUF + 1;
      hide Coherent, BufOk, Linked, InReleaseOrder, Counted, PinnedSet, OnlyHeld, Members, Layout.Loggable;
      if |lh| >= LOGSIZE || |lh| >= layout.size - 1 {
        return false;
      }
      if outstanding < 1 {
        return false;
      }
      TouchKeepsHolders(cache.buf, cache.memdisk, cache.view, cache.home, k, cache.buf[k].(dirty := true), held);
      var n := cache.buf[k].blockno;
      lh := Absorb(lh, n);
      cache.Pin(k);
      AbsorbedFits(layout, old(lh), n, cache.memdisk);
      return true;
    }

    // ----- when commit finds no buffer

    /** A transaction that changes `count` blocks, one after the other, from `first` on. */
    method LogRun(first: nat, count: nat, data: Block)
      requires Valid() && OnlyHeld(cache.buf, {}) && lh == [] && outstanding >= 1
      requires layout.start + layout.size <= first && first + count <= |cache.memdisk|
      requires count <= LOGSIZE && count < layout.size
      modifies cache, this`lh
      ensures Valid() && OnlyHeld(cache.buf, {}) && cache.memdisk == old(cache.memdisk)
      ensures |lh| == count && forall n :: n in lh ==> first <= n < first + count
    {
      hide Valid, OnlyHeld;
      for i := 0 to count
        invariant Valid() && OnlyHeld(cache.buf, {}) && cache.memdisk == old(cache.memdisk)
        invariant |lh| == i && forall n :: n in lh ==> first <= n < first + i
      {
        var ok := Update(first + i, data, {});
      }
    }

    /** LOGSIZE logged blocks pin every buffer: commit's first bread of a log block panics. */
    method LogFillsCache(first: nat, data: Block) returns (r: Option<nat>)
      requires Valid() && OnlyHeld(cache.buf, {}) && lh == [] && outstanding >= 1
      requires layout.start + layout.size <= first && first + LOGSIZE <= |cache.memdisk| && layout.size > LOGSIZE
      modifies cache, this`lh
      ensures |lh| == LOGSIZE && r.None?
    {
      hide Coherent, BufOk, Linked, InReleaseOrder, Counted, PinnedSet, OnlyHeld, Below, Rehomed;
      LogRun(first, LOGSIZE, data);
      FullCache({}, layout.start + 1);
      r := cache.Bread(layout.start + 1);
    }

    /** The same with the log that mkfs lays out, once a reader holds the one buffer that is not pinned. */
    method ReaderFillsCache(first: nat, m: nat, data: Block) returns (r: Option<nat>)
      requires Valid() && OnlyHeld(cache.buf, {}) && lh == [] && outstanding >= 1
      requires layout.start + layout.size <= first && first + LOGSIZE - 1 <= m < |cache.memdisk|
      requires layout.size >= LOGSIZE
      modifies cache, this`lh
      ensures |lh| == LOGSIZE - 1 && r.None?
    {
      hide Coherent, BufOk, Linked, InReleaseOrder, Counted, PinnedSet, OnlyHeld, Below, Rehomed;
      LogRun(first, LOGSIZE - 1, data);
      DistinctLength(lh);
      var k := Fetch(m, {});
      FullCache({} + {k}, layout.start + 1);
      r := cache.Bread(layout.start + 1);
    }

    /** With the logged blocks and the held buffers together filling the cache, block n has no buffer. */
    lemma FullCache(held: set<nat>, n: nat)
      requires Usable() && OnlyHeld(cache.buf, held) && held <= Below(NBUF)
      requires PinnedSet(cache.buf, cache.home) == Members(lh) && layout.Loggable(lh, cache.memdisk)
      requires |lh| + |held| >= NBUF && n !in lh
      requires forall m :: m in cache.home && cache.home[m] in held ==> m !in lh && m != n
      ensures n !in cache.home && forall k :: 0 <= k < NBUF ==> !cache.buf[k].Recyclable()
    {
      hide Linked, InReleaseOrder, Counted, Below;
      DistinctLength(lh);
      assert InUse(cache.buf) == held;
      assert PinnedBufs(cache.buf, cache.home) !! held;
      hide Coherent;
      PinsFill(cache.buf, cache.memdisk, cache.view, cache.home, n);
    }
  }

  /** Log absorption: block n takes a new entry only when it has none. */
  method Absorb(bs: seq<nat>, n: nat) returns (r: seq<nat>)
    ensures r == if n in bs then bs else bs + [n]
  {
    var i := 0;
    while i < |bs| && bs[i] != n
      invariant 0 <= i <= |bs| && n !in bs[..i]
    {
      i := i + 1;
    }
    if i == |bs| {
      r := bs + [n];
    } else {
      r := bs[i := n];
    }
  }

  /** The loop of read_head. */
  method DecodeHeader(h: Block) returns (bs: seq<nat>)
    requires HeaderCount(h) <= LOGSIZE
    ensures bs == Targets(h)
  {
    bs := [];
    for i := 0 to HeaderCount(h)
      invariant bs == Targets(h)[..i]
    {
      bs := bs + [WordAt(h, 1 + i)];
    }
  }
}
