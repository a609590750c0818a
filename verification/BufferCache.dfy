/** The buffer cache: NBUF buffers on a circular doubly linked list kept in release order, in front
    of a memory disk. Buffers are named by their index in bcache.buf; HEAD is bcache.head. */
module BufferCache {
  import opened Params
  import opened Blocks
  import opened Recovery
  import opened Wrappers

  const HEAD: nat := NBUF
  const ROOTDEV: nat := 1

  /** struct buf. `locked` is its sleep lock, `valid` and `dirty` the flag bits. */
  datatype Buf = Buf(valid: bool, dirty: bool, dev: nat, blockno: nat, locked: bool, refcnt: nat,
                     prev: nat, next: nat, data: Block)
  {
    predicate Caches(n: nat) {
      dev == ROOTDEV && blockno == n
    }

    predicate Recyclable() {
      refcnt == 0 && !dirty
    }

    /** Referenced and locked by one more user. */
    function Shared(): Buf {
      this.(refcnt := refcnt + 1, locked := true)
    }

    /** Taken over to hold block n, whose contents are still to be read. */
    function TakenFor(n: nat): Buf {
      this.(dev := ROOTDEV, blockno := n, valid := false, dirty := false, refcnt := 1, locked := true)
    }

    /** The buffer without its list links. */
    function Core(): Buf {
      this.(prev := 0, next := 0)
    }
  }

  // ----- the list

  ghost function RingOf(list: seq<nat>): (r: seq<nat>)
    ensures |r| == |list| + 2
  {
    [HEAD] + list + [HEAD]
  }

  ghost predicate LinkAt(b: seq<Buf>, ring: seq<nat>, i: nat)
    requires |b| == NBUF + 1 && i + 1 < |ring| && ring[i] <= NBUF && ring[i + 1] <= NBUF
  {
    b[ring[i]].next == ring[i + 1] && b[ring[i + 1]].prev == ring[i]
  }

  ghost predicate Distinct(list: seq<nat>) {
    && (forall i :: 0 <= i < |list| ==> list[i] < NBUF)
    && (forall i, j :: 0 <= i < j < |list| ==> list[i] != list[j])
  }

  /** next leads from HEAD through `list` and back to HEAD, and prev leads the same way back. */
  ghost predicate Linked(b: seq<Buf>, list: seq<nat>) {
    && |b| == NBUF + 1
    && Distinct(list)
    && forall i :: 0 <= i <= |list| ==> LinkAt(b, RingOf(list), i)
  }

  ghost predicate SameButLinks(b: seq<Buf>, b': seq<Buf>) {
    |b| == |b'| && forall k :: 0 <= k < |b| ==> b[k].Core() == b'[k].Core()
  }

  /** b->next->prev = b->prev; b->prev->next = b->next */
  function Unlinked(b: seq<Buf>, x: nat): (r: seq<Buf>)
    requires x < |b| && b[x].next < |b| && b[x].prev < |b|
    ensures |r| == |b|
  {
    var b1 := b[b[x].next := b[b[x].next].(prev := b[x].prev)];
    b1[b1[x].prev := b1[b1[x].prev].(next := b1[x].next)]
  }

  /** Insert x behind HEAD. */
  function Pushed(b: seq<Buf>, x: nat): (r: seq<Buf>)
    requires |b| == NBUF + 1 && x < NBUF && b[HEAD].next <= NBUF
    ensures |r| == |b|
  {
    var first := b[HEAD].next;
    var b1 := b[x := b[x].(next := first, prev := HEAD)];
    var b2 := b1[first := b1[first].(prev := x)];
    b2[HEAD := b2[HEAD].(next := x)]
  }

  function Without(list: seq<nat>, k: nat): seq<nat>
    requires k < |list|
  {
    list[..k] + list[k + 1..]
  }

  lemma RingWithout(list: seq<nat>, k: nat, i: nat)
    requires k < |list| && i <= |list|
    ensures RingOf(Without(list, k))[i] == if i <= k then RingOf(list)[i] else RingOf(list)[i + 1]
  {
  }

  lemma RingInRange(list: seq<nat>)
    requires Distinct(list)
    ensures forall i :: 0 <= i < |RingOf(list)| ==> RingOf(list)[i] <= NBUF
  {
  }

  lemma UnlinkKeepsLink(b: seq<Buf>, list: seq<nat>, k: nat, i: nat)
    requires Linked(b, list) && k < |list| && i <= |list| - 1 && b[list[k]].next <= NBUF && b[list[k]].prev <= NBUF
    requires RingOf(list)[k + 1] == list[k] && LinkAt(b, RingOf(list), k) && LinkAt(b, RingOf(list), k + 1)
    requires Distinct(Without(list, k))
    ensures LinkAt(Unlinked(b, list[k]), RingOf(Without(list, k)), i)
  {
    RingWithout(list, k, i);
    RingWithout(list, k, i + 1);
    if i < k {
      assert LinkAt(b, RingOf(list), i);
    } else if i > k {
      assert LinkAt(b, RingOf(list), i + 1);
    }
  }

  lemma UnlinkKeepsRing(b: seq<Buf>, list: seq<nat>, k: nat)
    requires Linked(b, list) && k < |list|
    ensures b[list[k]].next <= NBUF && b[list[k]].prev <= NBUF
    ensures Linked(Unlinked(b, list[k]), Without(list, k))
    ensures SameButLinks(b, Unlinked(b, list[k]))
  {
    var ring := RingOf(list);
    assert ring[k + 1] == list[k];
    assert LinkAt(b, ring, k) && LinkAt(b, ring, k + 1);
    RingInRange(Without(list, k));
    forall i | 0 <= i <= |list| - 1 ensures LinkAt(Unlinked(b, list[k]), RingOf(Without(list, k)), i) {
      UnlinkKeepsLink(b, list, k, i);
    }
  }

  lemma PushKeepsRing(b: seq<Buf>, list: seq<nat>, x: nat)
    requires Linked(b, list) && x < NBUF && x !in list
    ensures b[HEAD].next <= NBUF
    ensures Linked(Pushed(b, x), [x] + list)
    ensures SameButLinks(b, Pushed(b, x))
  {
    var ring, ring' := RingOf(list), RingOf([x] + list);
    assert LinkAt(b, ring, 0);
    var b' := Pushed(b, x);
    forall i | 0 <= i <= |list| + 1 ensures LinkAt(b', ring', i) {
      if i > 1 {
        assert LinkAt(b, ring, i - 1);
      }
    }
  }

  /** brelse's six pointer assignments move entry p of the list to its front. */
  lemma MoveKeepsRing(b: seq<Buf>, list: seq<nat>, p: nat)
    requires Linked(b, list) && p < |list|
    ensures var x := list[p];
            && b[x].next <= NBUF && b[x].prev <= NBUF && Unlinked(b, x)[HEAD].next <= NBUF
            && Linked(Pushed(Unlinked(b, x), x), [x] + Without(list, p))
            && SameButLinks(Pushed(Unlinked(b, x), x), b)
  {
    UnlinkKeepsRing(b, list, p);
    assert list[p] !in Without(list, p);
    PushKeepsRing(Unlinked(b, list[p]), Without(list, p), list[p]);
  }

  // ----- agreement with the disk

  /** `view` is the flat logical disk: what every block holds as far as file system code can tell.
      It differs from the disk only where a dirty buffer holds newer contents, and `home` maps each
      cached block number to the one buffer that caches it. */
  ghost predicate Coherent(b: seq<Buf>, disk: Disk, view: Disk, home: map<nat, nat>) {
    && |b| == NBUF + 1
    && |view| == |disk|
    && (forall k :: 0 <= k < NBUF ==> BufOk(b[k], k, view, home))
    && (forall n :: n in home ==> n < |disk| && home[n] < NBUF && b[home[n]].Caches(n))
    && (forall n :: 0 <= n < |disk| && !Pinned(b, home, n) ==> view[n] == disk[n])
  }

  ghost predicate BufOk(x: Buf, k: nat, view: Disk, home: map<nat, nat>) {
    && (x.dev == ROOTDEV ==> x.blockno in home && home[x.blockno] == k)
    && (x.dirty ==> x.valid)
    && (x.valid ==> x.dev == ROOTDEV && x.blockno < |view|)
    && (x.locked ==> x.refcnt > 0)
    && (x.valid && !x.locked ==> x.data == view[x.blockno])
  }

  /** Block n is held in the cache by B_DIRTY. */
  ghost predicate Pinned(b: seq<Buf>, home: map<nat, nat>, n: nat) {
    n in home && home[n] < |b| && b[home[n]].dirty
  }

  lemma CachedShows(b: seq<Buf>, disk: Disk, view: Disk, home: map<nat, nat>, n: nat)
    requires Coherent(b, disk, view, home)
    ensures |b| == NBUF + 1 && |view| == |disk|
    ensures n in home ==> n < |disk| && home[n] < NBUF && b[home[n]].Caches(n)
    ensures n in home && b[home[n]].valid && !b[home[n]].locked ==> b[home[n]].data == view[n]
  {
    if n in home {
      assert BufOk(b[home[n]], home[n], view, home);
    }
  }

  /** A buffer that is still to be read belongs to a block that no buffer has changed. */
  lemma UnreadShows(b: seq<Buf>, disk: Disk, view: Disk, home: map<nat, nat>, k: nat)
    requires Coherent(b, disk, view, home) && k < NBUF && k < |b|
    ensures !b[k].valid ==> !b[k].dirty
    ensures !b[k].valid && b[k].dev == ROOTDEV ==>
              b[k].blockno < |disk| == |view| && disk[b[k].blockno] == view[b[k].blockno]
  {
    assert BufOk(b[k], k, view, home);
    if !b[k].valid && b[k].dev == ROOTDEV {
      assert !Pinned(b, home, b[k].blockno);
    }
  }

  /** refcnt counts the users. */
  ghost predicate Counted(b: seq<Buf>, users: seq<nat>) {
    |users| == NBUF < |b| && forall k :: 0 <= k < NBUF ==> b[k].refcnt == users[k]
  }

  predicate SameBlock(x: Buf, y: Buf) {
    x.dev == y.dev && x.blockno == y.blockno
  }

  /** `stamp` records when a buffer was last moved to the front; the list is in that order. */
  ghost predicate InReleaseOrder(order: seq<nat>, stamp: seq<nat>, clock: nat) {
    && |stamp| == NBUF && Distinct(order)
    && (forall k :: 0 <= k < NBUF ==> stamp[k] < clock && k in order)
    && (forall i, j :: 0 <= i < j < |order| ==> stamp[order[i]] > stamp[order[j]])
  }

  /** Indices b-1, ..., 0: the list after binit has linked b buffers. */
  ghost function Countdown(b: nat): (r: seq<nat>)
    ensures |r| == b && forall i :: 0 <= i < b ==> r[i] == b - 1 - i
  {
    if b == 0 then [] else [b - 1] + Countdown(b - 1)
  }

  const ZERO_BUF := Buf(false, false, 0, 0, false, 0, HEAD, HEAD, ZeroBlock())

  lemma EmptyRing(b: seq<Buf>)
    requires |b| == NBUF + 1 && b[HEAD].next == b[HEAD].prev == HEAD
    ensures Linked(b, Countdown(0))
  {
    assert RingOf([]) == [HEAD, HEAD];
  }

  lemma LinkedBasics(b: seq<Buf>, list: seq<nat>)
    requires Linked(b, list)
    ensures |b| == NBUF + 1 && b[HEAD].next <= NBUF
  {
    assert LinkAt(b, RingOf(list), 0);
  }

  lemma FreshCache(b: seq<Buf>, disk: Disk)
    requires |b| == NBUF + 1 && forall k :: 0 <= k <= NBUF ==> b[k].Core() == ZERO_BUF.Core()
    ensures Coherent(b, disk, disk, map[])
    ensures InReleaseOrder(Countdown(NBUF), seq(NBUF, (i: nat) => i), NBUF)
    ensures forall k :: 0 <= k < NBUF ==> b[k].Recyclable() && !b[k].locked
    ensures Counted(b, seq(NBUF, _ => 0))
  {
    forall k | 0 <= k < NBUF ensures BufOk(b[k], k, disk, map[]) && b[k].Recyclable() && !b[k].locked {
      assert b[k].Core() == ZERO_BUF.Core();
    }
    forall k | 0 <= k < NBUF ensures k in Countdown(NBUF) {
      assert Countdown(NBUF)[NBUF - 1 - k] == k;
    }
  }

  /** The map of cached blocks after buffer k, which held x, is taken over for block n. */
  ghost function Rehomed(home: map<nat, nat>, x: Buf, n: nat, k: nat): map<nat, nat> {
    (if x.dev == ROOTDEV then home - {x.blockno} else home)[n := k]
  }

  lemma HitKeepsCoherence(b: seq<Buf>, disk: Disk, view: Disk, home: map<nat, nat>, k: nat)
    requires Coherent(b, disk, view, home) && k < NBUF
    ensures Coherent(b[k := b[k].Shared()], disk, view, home)
  {
    assert forall n :: Pinned(b[k := b[k].Shared()], home, n) == Pinned(b, home, n);
  }

  lemma RecycleKeepsCoherence(b: seq<Buf>, disk: Disk, view: Disk, home: map<nat, nat>, k: nat, n: nat)
    requires Coherent(b, disk, view, home) && k < NBUF && n < |disk| && n !in home && b[k].Recyclable()
    ensures Coherent(b[k := b[k].TakenFor(n)], disk, view, Rehomed(home, b[k], n, k))
  {
    var b' := b[k := b[k].TakenFor(n)];
    var home' := Rehomed(home, b[k], n, k);
    forall j | 0 <= j < NBUF ensures BufOk(b'[j], j, view, home') {
      assert BufOk(b[j], j, view, home);
      assert BufOk(b[k], k, view, home);
    }
    assert forall m :: Pinned(b', home', m) == Pinned(b, home, m);
  }

  /** A change to one buffer that leaves its links alone leaves the list alone. */
  lemma LinksSurvive(b: seq<Buf>, k: nat, x: Buf, order: seq<nat>)
    requires Linked(b, order) && k < NBUF && x.next == b[k].next && x.prev == b[k].prev
    ensures Linked(b[k := x], order)
  {
    var b' := b[k := x];
    forall i | 0 <= i <= |order| ensures LinkAt(b', RingOf(order), i) {
      assert LinkAt(b, RingOf(order), i);
    }
  }

  /** The holder of buffer k reads or writes it through; the disk and the view follow. */
  lemma HeldBufferMaySync(b: seq<Buf>, disk: Disk, view: Disk, home: map<nat, nat>, k: nat, x: Buf)
    requires Coherent(b, disk, view, home) && k < NBUF && b[k].dev == ROOTDEV && b[k].locked
    requires x == b[k].(valid := true, dirty := false, data := x.data)
    ensures var n := b[k].blockno;
            && n < |disk|
            && Coherent(b[k := x], disk[n := x.data], view[n := x.data], home)
            && (!b[k].dirty ==> Coherent(b[k := x], disk, view, home))
  {
    var n := b[k].blockno;
    assert BufOk(b[k], k, view, home);
    var b', view' := b[k := x], view[n := x.data];
    forall j | 0 <= j < NBUF ensures BufOk(b'[j], j, view', home) && (!b[k].dirty ==> BufOk(b'[j], j, view, home)) {
      assert BufOk(b[j], j, view, home);
    }
    assert forall m :: Pinned(b', home, m) == (m != n && Pinned(b, home, m));
  }

  /** The holder of buffer k changes it, marks it dirty with the contents as the new view, or lets it go. */
  lemma HeldBufferMayChange(b: seq<Buf>, disk: Disk, view: Disk, home: map<nat, nat>, k: nat, x: Buf)
    requires Coherent(b, disk, view, home) && k < NBUF && b[k].locked && b[k].valid
    requires x == b[k].(data := x.data, locked := x.locked, refcnt := x.refcnt, dirty := x.dirty)
    requires x.locked ==> x.refcnt > 0
    requires b[k].dirty ==> x.dirty
    ensures var n := b[k].blockno; n < |disk| == |view|
    ensures var n := b[k].blockno; x.locked || x.data == view[n] ==> Coherent(b[k := x], disk, view, home)
    ensures var n := b[k].blockno; x.dirty ==> Coherent(b[k := x], disk, view[n := x.data], home)
  {
    var n := b[k].blockno;
    assert BufOk(b[k], k, view, home);
    var b', view' := b[k := x], view[n := x.data];
    forall j | 0 <= j < NBUF
      ensures BufOk(b'[j], j, view', home) && (x.locked || x.data == view[n] ==> BufOk(b'[j], j, view, home))
    {
      assert BufOk(b[j], j, view, home);
    }
    assert forall m :: Pinned(b', home, m) == (if m == n then x.dirty else Pinned(b, home, m));
  }

  lemma RelinkKeepsCoherence(b: seq<Buf>, b': seq<Buf>, disk: Disk, view: Disk, home: map<nat, nat>)
    requires Coherent(b, disk, view, home) && SameButLinks(b, b')
    ensures Coherent(b', disk, view, home)
  {
    forall j | 0 <= j < NBUF ensures BufOk(b'[j], j, view, home) {
      assert BufOk(b[j], j, view, home) && b[j].Core() == b'[j].Core();
    }
    forall n | n in home ensures n < |disk| && home[n] < NBUF && b'[home[n]].Caches(n) {
      assert b[home[n]].Core() == b'[home[n]].Core();
    }
    forall n ensures Pinned(b', home, n) == Pinned(b, home, n) {
      if n in home {
        assert b[home[n]].Core() == b'[home[n]].Core();
      }
    }
  }

  lemma RelinkKeepsCount(b: seq<Buf>, b': seq<Buf>, users: seq<nat>)
    requires Counted(b, users) && SameButLinks(b, b')
    ensures Counted(b', users)
  {
    forall k | 0 <= k < NBUF ensures b'[k].refcnt == users[k] {
      assert b[k].Core() == b'[k].Core();
    }
  }

  /** Where the entry at index i of the list stood before the entry at p moved to the front. */
  ghost function Came(p: nat, i: nat): nat {
    if i == 0 then p else if i <= p then i - 1 else i
  }

  lemma MovedEntry(order: seq<nat>, p: nat, i: nat)
    requires p < |order| && i < |order|
    ensures ([order[p]] + Without(order, p))[i] == order[Came(p, i)]
  {
  }

  lemma ReleasedEarlier(order: seq<nat>, stamp: seq<nat>, clock: nat, p: nat, i: nat, j: nat)
    requires InReleaseOrder(order, stamp, clock) && p < |order| && i < j < |order|
    ensures order[Came(p, i)] != order[Came(p, j)]
    ensures stamp[order[p] := clock][order[Came(p, i)]] > stamp[order[p] := clock][order[Came(p, j)]]
  {
    var y := order[Came(p, j)];
    assert y != order[p];
    if i > 0 {
      var x := order[Came(p, i)];
      assert x != order[p] && stamp[x] > stamp[y];
    }
  }

  lemma StillListed(order: seq<nat>, p: nat, k: nat)
    requires p < |order| && k in order
    ensures k in [order[p]] + Without(order, p)
  {
    var q :| 0 <= q < |order| && order[q] == k;
    MovedEntry(order, p, if q < p then q + 1 else if q == p then 0 else q);
  }

  /** Of two entries of the new list the one in front was released later. */
  lemma MovedApart(order: seq<nat>, stamp: seq<nat>, clock: nat, p: nat, i: nat, j: nat)
    requires InReleaseOrder(order, stamp, clock) && p < |order| && i < j < |order|
    ensures var order', stamp' := [order[p]] + Without(order, p), stamp[order[p] := clock];
            order'[i] != order'[j] && order'[i] < NBUF && order'[j] < NBUF && stamp'[order'[i]] > stamp'[order'[j]]
  {
    hide Without;
    MovedEntry(order, p, i);
    MovedEntry(order, p, j);
    ReleasedEarlier(order, stamp, clock, p, i, j);
  }

  lemma OrderBasics(order: seq<nat>, stamp: seq<nat>, clock: nat)
    requires InReleaseOrder(order, stamp, clock)
    ensures |stamp| == NBUF && (forall k :: 0 <= k < NBUF ==> stamp[k] < clock && k in order)
    ensures forall i :: 0 <= i < |order| ==> order[i] < NBUF
  {
  }

  lemma IsReleaseOrder(order: seq<nat>, stamp: seq<nat>, clock: nat)
    requires |stamp| == NBUF && (forall k :: 0 <= k < NBUF ==> stamp[k] < clock && k in order)
    requires forall i :: 0 <= i < |order| ==> order[i] < NBUF
    requires forall i, j :: 0 <= i < j < |order| ==> order[i] != order[j] && stamp[order[i]] > stamp[order[j]]
    ensures InReleaseOrder(order, stamp, clock)
  {
  }

  /** Moving the buffer released last to the front keeps the list in release order. */
  lemma ReleaseKeepsOrder(order: seq<nat>, stamp: seq<nat>, clock: nat, p: nat)
    requires InReleaseOrder(order, stamp, clock) && p < |order|
    ensures InReleaseOrder([order[p]] + Without(order, p), stamp[order[p] := clock], clock + 1)
  {
    hide InReleaseOrder, Counted;
    OrderBasics(order, stamp, clock);
    var order', stamp' := [order[p]] + Without(order, p), stamp[order[p] := clock];
    assert |order'| == |order|;
    hide Without;
    forall k | 0 <= k < NBUF ensures k in order' {
      StillListed(order, p, k);
    }
    forall i | 0 <= i < |order'| ensures order'[i] < NBUF {
      MovedEntry(order, p, i);
    }
    forall i, j | 0 <= i < j < |order'| ensures order'[i] != order'[j] && stamp'[order'[i]] > stamp'[order'[j]] {
      MovedApart(order, stamp, clock, p, i, j);
    }
    IsReleaseOrder(order', stamp', clock + 1);
  }

  lemma PlaceOf(order: seq<nat>, stamp: seq<nat>, clock: nat, k: nat) returns (p: nat)
    requires InReleaseOrder(order, stamp, clock) && k < NBUF
    ensures p < |order| && order[p] == k && |stamp| == NBUF
  {
    assert k in order;
    p :| 0 <= p < |order| && order[p] == k;
  }

  lemma NotCached(b: seq<Buf>, disk: Disk, view: Disk, home: map<nat, nat>, order: seq<nat>, n: nat)
    requires Coherent(b, disk, view, home) && Distinct(order)
    requires forall k :: 0 <= k < NBUF ==> k in order
    requires forall j :: 1 <= j < |order| + 1 ==> !b[RingOf(order)[j]].Caches(n)
    ensures n !in home
  {
    forall k | 0 <= k < NBUF ensures !b[k].Caches(n) {
      assert k in order;
      var p :| 0 <= p < |order| && order[p] == k;
      assert RingOf(order)[p + 1] == k;
    }
  }

  lemma OldestIsFirst(b: seq<Buf>, order: seq<nat>, stamp: seq<nat>, clock: nat, i: nat)
    requires |b| == NBUF + 1 && InReleaseOrder(order, stamp, clock) && i < |order|
    requires forall j :: i + 1 < j <= |order| ==> !b[RingOf(order)[j]].Recyclable()
    ensures forall j :: 0 <= j < NBUF && b[j].Recyclable() ==> stamp[order[i]] <= stamp[j]
  {
    forall j | 0 <= j < NBUF && b[j].Recyclable() ensures stamp[order[i]] <= stamp[j] {
      assert j in order;
      var p :| 0 <= p < |order| && order[p] == j;
      assert RingOf(order)[p + 1] == j;
    }
  }

  lemma NoneRecyclable(b: seq<Buf>, order: seq<nat>, stamp: seq<nat>, clock: nat)
    requires |b| == NBUF + 1 && InReleaseOrder(order, stamp, clock)
    requires forall j :: 0 < j <= |order| ==> !b[RingOf(order)[j]].Recyclable()
    ensures forall j :: 0 <= j < NBUF ==> !b[j].Recyclable()
  {
    forall j | 0 <= j < NBUF ensures !b[j].Recyclable() {
      assert j in order;
      var p :| 0 <= p < |order| && order[p] == j;
      assert RingOf(order)[p + 1] == j;
    }
  }

  class BCache {
    var memdisk: Disk
    var buf: seq<Buf>
    ghost var trace: seq<Disk>      // the disk after each block write so far
    ghost var view: Disk
    ghost var home: map<nat, nat>
    ghost var order: seq<nat>       // most recently released first
    ghost var stamp: seq<nat>
    ghost var clock: nat
    ghost var users: seq<nat>       // of each buffer, the calls of bget that no brelse has matched yet

    ghost predicate Valid()
      reads this
    {
      && Coherent(buf, memdisk, view, home)
      && Linked(buf, order)
      && InReleaseOrder(order, stamp, clock)
      && Counted(buf, users)
    }

    /** binit: link every (zeroed) buffer in turn behind HEAD. */
    constructor (disk: Disk)
      ensures Valid() && memdisk == view == disk && trace == [] && home == map[]
      ensures forall k :: 0 <= k < NBUF ==> buf[k].Recyclable() && !buf[k].locked && users[k] == 0
    {
      buf := seq(NBUF + 1, _ => ZERO_BUF);
      memdisk, view, trace, home := disk, disk, [], map[];
      new;
      hide Linked, Coherent, InReleaseOrder, Counted;
      EmptyRing(buf);
      for b := 0 to NBUF
        invariant Linked(buf, Countdown(b))
        invariant memdisk == view == disk && trace == [] && home == map[]
        invariant forall k :: 0 <= k <= NBUF ==> buf[k].Core() == ZERO_BUF.Core()
      {
        LinkedBasics(buf, Countdown(b));
        PushKeepsRing(buf, Countdown(b), b);
        PushFront(b);
      }
      order, stamp, clock := Countdown(NBUF), seq(NBUF, (i: nat) => i), NBUF;
      users := seq(NBUF, _ => 0);
      FreshCache(buf, disk);
    }

    method PushFront(x: nat)
      requires |buf| == NBUF + 1 && x < NBUF && buf[HEAD].next <= NBUF
      modifies this`buf
      ensures buf == Pushed(old(buf), x)
    {
      buf := buf[x := buf[x].(next := buf[HEAD].next)];
      buf := buf[x := buf[x].(prev := HEAD)];
      buf := buf[buf[HEAD].next := buf[buf[HEAD].next].(prev := x)];
      buf := buf[HEAD := buf[HEAD].(next := x)];
    }

    /** The forward scan of bget. */
    method FindCached(n: nat) returns (r: Option<nat>)
      requires Valid()
      ensures r == if n in home then Some(home[n]) else None
    {
      ghost var ring := RingOf(order);
      assert LinkAt(buf, ring, 0);
      var b := buf[HEAD].next;
      ghost var i := 1;
      while b != HEAD
        invariant 1 <= i < |ring| && b == ring[i]
        invariant forall j :: 1 <= j < i ==> !buf[ring[j]].Caches(n)
        decreases |ring| - i
      {
        if buf[b].Caches(n) {
          return Some(b);
        }
        assert LinkAt(buf, ring, i);
        b, i := buf[b].next, i + 1;
      }
      NotCached(buf, memdisk, view, home, order, n);
      return None;
    }

    /** The backward scan of bget: the clean unreferenced buffer released longest ago. */
    method FindVictim() returns (r: Option<nat>)
      requires Valid()
      ensures r.None? ==> forall k :: 0 <= k < NBUF ==> !buf[k].Recyclable()
      ensures r.Some? ==> r.value < NBUF && buf[r.value].Recyclable() && users[r.value] == 0
      ensures r.Some? ==> forall k :: 0 <= k < NBUF && buf[k].Recyclable() ==> stamp[r.value] <= stamp[k]
    {
      ghost var ring := RingOf(order);
      assert LinkAt(buf, ring, |order|);
      var b := buf[HEAD].prev;
      ghost var i := |order|;
      while b != HEAD
        invariant 0 <= i <= |order| && b == ring[i]
        invariant forall j :: i < j <= |order| ==> !buf[ring[j]].Recyclable()
        decreases i
      {
        if buf[b].Recyclable() {
          OldestIsFirst(buf, order, stamp, clock, i - 1);
          return Some(b);
        }
        assert LinkAt(buf, ring, i - 1);
        b, i := buf[b].prev, i - 1;
      }
      NoneRecyclable(buf, order, stamp, clock);
      return None;
    }

    /** Lock the buffer that caches block n, or take over the victim for it.
        None is the panic "bget: no buffers". */
    method Bget(n: nat) returns (r: Option<nat>)
      requires Valid() && n < |memdisk| && (n in home ==> !buf[home[n]].locked)
      modifies this`buf, this`home, this`users
      ensures Valid() && |users| == |old(users)| == NBUF
      ensures r.Some? ==> r.value < NBUF && users == old(users)[r.value := old(users)[r.value] + 1]
      ensures r.Some? && n !in old(home) ==> old(users)[r.value] == 0
      ensures forall k :: 0 <= k < NBUF && old(users)[k] > 0 ==> SameBlock(old(buf)[k], buf[k])
      ensures r.None? <==> n !in old(home) && forall k :: 0 <= k < NBUF ==> !old(buf)[k].Recyclable()
      ensures r.None? ==> buf == old(buf) && home == old(home) && users == old(users)
      ensures r.Some? && n in old(home) ==>
                var k := old(home)[n];
                r.value == k && buf == old(buf)[k := old(buf)[k].Shared()] && home == old(home)
      ensures r.Some? && n !in old(home) ==>
                var k := r.value;
                && k < NBUF && old(buf)[k].Recyclable()
                && buf == old(buf)[k := old(buf)[k].TakenFor(n)] && home == Rehomed(old(home), old(buf)[k], n, k)
                && forall j :: 0 <= j < NBUF && old(buf)[j].Recyclable() ==> stamp[k] <= stamp[j]
    {
      var hit := FindCached(n);
      if hit.Some? {
        HitKeepsCoherence(buf, memdisk, view, home, hit.value);
        LinksSurvive(buf, hit.value, buf[hit.value].Shared(), order);
        buf := buf[hit.value := buf[hit.value].Shared()];
        users := users[hit.value := users[hit.value] + 1];
        return hit;
      }
      r := FindVictim();
      if r.Some? {
        RecycleKeepsCoherence(buf, memdisk, view, home, r.value, n);
        LinksSurvive(buf, r.value, buf[r.value].TakenFor(n), order);
        home := Rehomed(home, buf[r.value], n, r.value);
        buf := buf[r.value := buf[r.value].TakenFor(n)];
        users := users[r.value := users[r.value] + 1];
      }
    }

    /** iderw on the memory disk: write a dirty buffer back, else fill an invalid one. */
    method Iderw(k: nat)
      requires Valid() && k < NBUF && buf[k].locked && buf[k].dev == ROOTDEV
      requires buf[k].dirty || !buf[k].valid
      modifies this`buf, this`memdisk, this`trace, this`view
      ensures Valid() && buf[k].blockno < |memdisk|
      ensures var was, n := old(buf[k]), buf[k].blockno;
              if was.dirty then
                && buf == old(buf)[k := was.(dirty := false, valid := true)]
                && memdisk == old(memdisk)[n := was.data] && trace == old(trace) + [memdisk]
                && view == old(view)[n := was.data]
              else
                && buf == old(buf)[k := was.(valid := true, data := memdisk[n])]
                && memdisk == old(memdisk) && trace == old(trace) && view == old(view)
    {
      var n := buf[k].blockno;
      assert BufOk(buf[k], k, view, home);
      if buf[k].dirty {
        var x := buf[k].(dirty := false, valid := true);
        HeldBufferMaySync(buf, memdisk, view, home, k, x);
        LinksSurvive(buf, k, x, order);
        memdisk, view := memdisk[n := x.data], view[n := x.data];
        trace := trace + [memdisk];
        buf := buf[k := x];
      } else {
        var x := buf[k].(valid := true, data := memdisk[n]);
        HeldBufferMaySync(buf, memdisk, view, home, k, x);
        LinksSurvive(buf, k, x, order);
        buf := buf[k := x];
      }
    }

    /** Lock the buffer of block n, filled with the block's logical contents. */
    method Bread(n: nat) returns (r: Option<nat>)
      requires Valid() && n < |memdisk| && (n in home ==> !buf[home[n]].locked)
      modifies this`buf, this`home, this`users, this`memdisk, this`trace, this`view
      ensures |users| == |old(users)| == NBUF && (r.None? ==> users == old(users))
      ensures r.Some? ==> r.value < NBUF && users == old(users)[r.value := old(users)[r.value] + 1]
      ensures Valid() && memdisk == old(memdisk) && trace == old(trace) && view == old(view)
      ensures r.None? <==> n !in old(home) && forall k :: 0 <= k < NBUF ==> !old(buf)[k].Recyclable()
      ensures r.Some? && n in old(home) ==>
                var k := old(home)[n];
                && r.value == k && home == old(home)
                && buf == old(buf)[k := old(buf)[k].Shared().(valid := true, data := view[n])]
      ensures r.Some? && n !in old(home) ==>
                var k := r.value;
                && k < NBUF && old(buf)[k].Recyclable() && home == Rehomed(old(home), old(buf)[k], n, k)
                && buf == old(buf)[k := old(buf)[k].TakenFor(n).(valid := true, data := view[n])]
    {
      hide Coherent, Linked, InReleaseOrder, Counted;
      CachedShows(buf, memdisk, view, home, n);
      r := Bget(n);
      if r.Some? {
        UnreadShows(buf, memdisk, view, home, r.value);
        if !buf[r.value].valid {
          Iderw(r.value);
        }
      }
    }

    /** The holder overwrites b->data. */
    method Store(k: nat, data: Block)
      requires Valid() && k < NBUF && buf[k].locked && buf[k].valid
      modifies this`buf
      ensures Valid() && buf == old(buf)[k := old(buf)[k].(data := data)]
    {
      HeldBufferMayChange(buf, memdisk, view, home, k, buf[k].(data := data));
      LinksSurvive(buf, k, buf[k].(data := data), order);
      buf := buf[k := buf[k].(data := data)];
    }

    /** The end of log_write: the contents become the block's logical contents and stay cached. */
    method Pin(k: nat)
      requires Valid() && k < NBUF && buf[k].locked && buf[k].valid
      modifies this`buf, this`view
      ensures Valid() && buf[k].blockno < |memdisk|
      ensures buf == old(buf)[k := old(buf)[k].(dirty := true)]
      ensures view == old(view)[buf[k].blockno := buf[k].data]
    {
      var x := buf[k].(dirty := true);
      HeldBufferMayChange(buf, memdisk, view, home, k, x);
      LinksSurvive(buf, k, x, order);
      buf, view := buf[k := x], view[x.blockno := x.data];
    }

    /** Write the buffer to disk: one block write. */
    method Bwrite(k: nat)
      requires Valid() && k < NBUF && buf[k].locked && buf[k].valid
      modifies this`buf, this`memdisk, this`trace, this`view
      ensures Valid() && buf[k].blockno < |memdisk|
      ensures buf == old(buf)[k := old(buf)[k].(dirty := false)]
      ensures memdisk == old(memdisk)[buf[k].blockno := buf[k].data] && trace == old(trace) + [memdisk]
      ensures view == old(view)[buf[k].blockno := buf[k].data]
    {
      Pin(k);
      Iderw(k);
    }

    /** Unlock and drop one reference; the last reference moves the buffer to the front. */
    method Brelse(k: nat)
      requires Valid() && k < NBUF && buf[k].locked && buf[k].valid && buf[k].data == view[buf[k].blockno]
      modifies this`buf, this`order, this`stamp, this`clock, this`users
      ensures Valid() && |old(users)| == NBUF && old(users)[k] > 0 && users == old(users)[k := old(users)[k] - 1]
      ensures SameButLinks(buf, old(buf)[k := old(buf)[k].(locked := false, refcnt := old(buf)[k].refcnt - 1)])
      ensures old(buf)[k].refcnt > 1 ==> order == old(order) && stamp == old(stamp)
      ensures old(buf)[k].refcnt == 1 ==> [k] <= order && stamp == old(stamp)[k := old(clock)]
    {
      assert BufOk(buf[k], k, view, home);
      var x := buf[k].(locked := false, refcnt := buf[k].refcnt - 1);
      HeldBufferMayChange(buf, memdisk, view, home, k, x);
      LinksSurvive(buf, k, x, order);
      buf, users := buf[k := x], users[k := users[k] - 1];
      if x.refcnt == 0 {
        MoveToFront(k);
      }
    }

    method MoveToFront(k: nat)
      requires Valid() && k < NBUF
      modifies this`buf, this`order, this`stamp, this`clock
      ensures Valid() && SameButLinks(buf, old(buf)) && [k] <= order && stamp == old(stamp)[k := old(clock)]
    {
      hide Coherent, InReleaseOrder, Counted;
      ghost var p := PlaceOf(order, stamp, clock, k);
      MoveKeepsRing(buf, order, p);
      Unlink(k);
      PushFront(k);
      RelinkKeepsCoherence(old(buf), buf, memdisk, view, home);
      RelinkKeepsCount(old(buf), buf, users);
      ReleaseKeepsOrder(order, stamp, clock, p);
      order, stamp, clock := [k] + Without(order, p), stamp[k := clock], clock + 1;
    }

    method Unlink(x: nat)
      requires x < |buf| && buf[x].next < |buf| && buf[x].prev < |buf|
      modifies this`buf
      ensures buf == Unlinked(old(buf), x)
    {
      buf := buf[buf[x].next := buf[buf[x].next].(prev := buf[x].prev)];
      buf := buf[buf[x].prev := buf[buf[x].prev].(next := buf[x].next)];
    }
  }
}
