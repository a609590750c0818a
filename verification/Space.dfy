/** Free blocks and the blocks a file lacks: when bmap, writei and filewrite run out. */
module Space {
  import opened Params
  import opened Blocks
  import opened Bits
  import opened Inodes
  import opened Ownership
  import opened FileBlocks
  import opened FileBytes
  import opened Counting

  ghost function FreeBlocks(sb: Super, disk: Disk): set<nat>
    requires sb.Ok() && |disk| == sb.size
  {
    set b: nat | b < sb.size && !Marked(sb, disk, b)
  }

  /** The slots of the locked inode that have a block. */
  ghost function UsedSlots(v: View): set<nat>
    requires v.ip.Ok()
  {
    set s: nat | s < SLOTS && RefOf(v.disk, v.ip, s) != 0
  }

  /** The slots that blocks lo, ..., hi-1 of a file need, the indirect block's among them. */
  ghost function WantedSlots(lo: nat, hi: nat): set<nat> {
    set s: nat | s < SLOTS && Wanted(s, lo, hi)
  }

  predicate Wanted(s: nat, lo: nat, hi: nat) {
    if s < NDIRECT then lo <= s < hi else if s == NDIRECT then lo < hi && NDIRECT < hi else lo <= s - 1 < hi
  }

  /** The blocks that must be allocated for them. */
  ghost function Missing(v: View, lo: nat, hi: nat): set<nat>
    requires v.ip.Ok()
  {
    WantedSlots(lo, hi) - UsedSlots(v)
  }

  /** There are fewer free blocks than blocks lo, ..., hi-1 of the file need. */
  ghost predicate Lacks(sb: Super, v: View, lo: nat, hi: nat)
    requires sb.Ok() && |v.disk| == sb.size && v.ip.Ok()
  {
    |Missing(v, lo, hi)| > |FreeBlocks(sb, v.disk)|
  }

  // ----- what allocation does to the two

  ghost predicate Sized(sb: Super, v: View) {
    sb.Ok() && |v.disk| == sb.size && v.ip.Ok()
  }

  /** Free blocks and used slots together: allocation turns one into the other. */
  ghost function Stock(sb: Super, v: View): nat
    requires Sized(sb, v)
  {
    |FreeBlocks(sb, v.disk)| + |UsedSlots(v)|
  }

  /** From v to v' slots of `more` have got blocks, and that is all. */
  ghost predicate Filled(sb: Super, v: View, v': View, more: set<nat>) {
    Sized(sb, v) && Sized(sb, v') && Stock(sb, v') == Stock(sb, v) && UsedSlots(v') == UsedSlots(v) + more
  }

  ghost predicate Fed(sb: Super, v: View, v': View, lo: nat, hi: nat) {
    Filled(sb, v, v', WantedSlots(lo, hi))
  }

  /** On the way from v to having blocks lo, ..., hi-1, no free block was left at v'. */
  ghost predicate Starved(sb: Super, v: View, v': View, lo: nat, hi: nat) {
    && Sized(sb, v) && Sized(sb, v') && Stock(sb, v') == Stock(sb, v) && FreeBlocks(sb, v'.disk) == {}
    && UsedSlots(v) <= UsedSlots(v') < UsedSlots(v) + WantedSlots(lo, hi)
  }

  lemma FedHasEnough(sb: Super, v: View, v': View, lo: nat, hi: nat)
    requires Fed(sb, v, v', lo, hi)
    ensures !Lacks(sb, v, lo, hi)
  {
    hide FreeBlocks, UsedSlots, WantedSlots;
    assert UsedSlots(v') == UsedSlots(v) + Missing(v, lo, hi);
  }

  lemma StarvedLacks(sb: Super, v: View, v': View, lo: nat, hi: nat)
    requires Starved(sb, v, v', lo, hi)
    ensures Lacks(sb, v, lo, hi)
  {
    hide FreeBlocks, UsedSlots, WantedSlots;
    assert UsedSlots(v) + WantedSlots(lo, hi) == UsedSlots(v) + Missing(v, lo, hi);
    ProperIsSmaller(UsedSlots(v'), UsedSlots(v) + Missing(v, lo, hi));
  }

  lemma ProperIsSmaller(s: set<nat>, t: set<nat>)
    requires s < t
    ensures |s| < |t|
  {
    var x :| x in t && x !in s;
    SubsetIsNoLarger(s, t - {x});
  }

  lemma WantedTogether(a: nat, b: nat, c: nat, d: nat)
    requires a <= c <= b <= d && (a < b || c == a) && (c < d || b == d)
    ensures WantedSlots(a, b) + WantedSlots(c, d) == WantedSlots(a, d)
  {
    forall s: nat | s < SLOTS ensures Wanted(s, a, d) <==> Wanted(s, a, b) || Wanted(s, c, d) {
    }
  }

  lemma FedTwice(sb: Super, v: View, v1: View, v2: View, a: nat, b: nat, c: nat, d: nat)
    requires Fed(sb, v, v1, a, b) && Fed(sb, v1, v2, c, d) && a <= c <= b <= d && (a < b || c == a) && (c < d || b == d)
    ensures Fed(sb, v, v2, a, d)
  {
    hide FreeBlocks, UsedSlots, WantedSlots;
    WantedTogether(a, b, c, d);
  }

  lemma FedThenStarved(sb: Super, v: View, v1: View, v2: View, a: nat, b: nat, c: nat, d: nat, e: nat)
    requires Fed(sb, v, v1, a, b) && Starved(sb, v1, v2, c, d) && a <= c <= b <= d <= e
    requires (a < b || c == a) && (c < d || b == d) && (d == e || a < d)
    ensures Starved(sb, v, v2, a, e)
  {
    hide FreeBlocks, UsedSlots, WantedSlots;
    WantedTogether(a, b, c, d);
    WantedMore(a, d, e);
  }

  lemma WantedMore(a: nat, d: nat, e: nat)
    requires a <= d <= e
    ensures WantedSlots(a, d) <= WantedSlots(a, e)
  {
  }

  lemma NothingFed(sb: Super, v: View, lo: nat)
    requires Sized(sb, v)
    ensures Fed(sb, v, v, lo, lo)
  {
    assert WantedSlots(lo, lo) == {};
  }

  /** Neither marks nor references have changed. */
  ghost predicate SameSpace(sb: Super, v: View, v': View) {
    && Sized(sb, v) && Sized(sb, v')
    && (forall b :: 0 <= b < sb.size ==> Marked(sb, v'.disk, b) == Marked(sb, v.disk, b))
    && (forall s :: 0 <= s < SLOTS ==> RefOf(v'.disk, v'.ip, s) == RefOf(v.disk, v.ip, s))
  }

  lemma SameSpaceFills(sb: Super, v: View, v': View, v'': View, more: set<nat>)
    requires Filled(sb, v, v', more) && SameSpace(sb, v', v'')
    ensures Filled(sb, v, v'', more)
  {
    hide Marked, RefOf;
    assert FreeBlocks(sb, v''.disk) == FreeBlocks(sb, v'.disk);
    assert UsedSlots(v'') == UsedSlots(v');
  }

  /** Slot s has got block r, which was free. */
  lemma OneFilled(sb: Super, v: View, v': View, s: nat, r: nat)
    requires Sized(sb, v) && Sized(sb, v') && s < SLOTS && r < sb.size && !Marked(sb, v.disk, r) && r != 0
    requires forall b :: 0 <= b < sb.size ==> Marked(sb, v'.disk, b) == (b == r || Marked(sb, v.disk, b))
    requires forall t :: 0 <= t < SLOTS ==> RefOf(v'.disk, v'.ip, t) == if t == s then r else RefOf(v.disk, v.ip, t)
    requires RefOf(v.disk, v.ip, s) == 0
    ensures Filled(sb, v, v', {s})
  {
    hide Marked, RefOf;
    assert FreeBlocks(sb, v'.disk) == FreeBlocks(sb, v.disk) - {r} && r in FreeBlocks(sb, v.disk);
    assert UsedSlots(v') == UsedSlots(v) + {s} && s !in UsedSlots(v);
  }

  lemma LinkFills(sb: Super, v: View, owner: Owners, s: nat, r: Word)
    requires Inv(sb, v, owner) && s <= NDIRECT && v.ip.addrs[s] == 0 && r < sb.size && !Marked(sb, v.disk, r)
    ensures Filled(sb, v, Linked(sb, v, s, r), {s})
  {
    hide Inv, Linked, Marked, RefOf, Filled;
    InvBasics(sb, v, owner);
    FreshIsUnowned(sb, v, owner, r);
    LinkedShape(sb, v, s, r);
    AllocationEffect(sb, v.disk, r);
    forall t | 0 <= t < SLOTS
      ensures RefOf(Linked(sb, v, s, r).disk, Linked(sb, v, s, r).ip, t) == if t == s then r else RefOf(v.disk, v.ip, t)
    {
      LinkedRefs(sb, v, owner, s, r, t);
    }
    EmptySlot(v, s);
    OneFilled(sb, v, Linked(sb, v, s, r), s, r);
  }

  lemma LinkedShape(sb: Super, v: View, s: nat, r: Word)
    requires Sized(sb, v) && r < sb.size && s <= NDIRECT
    ensures Sized(sb, Linked(sb, v, s, r)) && Linked(sb, v, s, r).disk == Allocated(sb, v.disk, r)
  {
  }

  lemma EmptySlot(v: View, s: nat)
    requires v.ip.Ok() && s <= NDIRECT
    ensures RefOf(v.disk, v.ip, s) == v.ip.addrs[s]
  {
  }

  lemma EnterFills(sb: Super, v: View, owner: Owners, j: nat, r: Word)
    requires Inv(sb, v, owner) && j < NINDIRECT && 0 < v.ip.addrs[NDIRECT] < sb.size
    requires RefOf(v.disk, v.ip, NDIRECT + 1 + j) == 0 && r < sb.size && !Marked(sb, v.disk, r)
    ensures Filled(sb, v, Entered(sb, v, j, r), {NDIRECT + 1 + j})
  {
    hide Inv, Entered, Marked, RefOf, Filled;
    InvBasics(sb, v, owner);
    FreshIsUnowned(sb, v, owner, r);
    var v' := Entered(sb, v, j, r);
    EnteredMarks(sb, v, owner, j, r);
    forall t | 0 <= t < SLOTS
      ensures RefOf(v'.disk, v'.ip, t) == if t == NDIRECT + 1 + j then r else RefOf(v.disk, v.ip, t)
    {
      EnteredRefs(sb, v, owner, j, r, t);
    }
    OneFilled(sb, v, v', NDIRECT + 1 + j, r);
  }

  lemma EnteredMarks(sb: Super, v: View, owner: Owners, j: nat, r: Word)
    requires Inv(sb, v, owner) && j < NINDIRECT && 0 < v.ip.addrs[NDIRECT] < sb.size && sb.datastart <= r < sb.size
    ensures forall b :: 0 <= b < sb.size ==>
              Marked(sb, Entered(sb, v, j, r).disk, b) == (b == r || Marked(sb, v.disk, b))
  {
    hide Marked, DiskInode, SetWord, Allocated, WordAt, OwnedOk, RefOwned;
    OwnRefs(sb, v, owner, NDIRECT);
    AllocationEffect(sb, v.disk, r);
    var d, ind := Allocated(sb, v.disk, r), v.ip.addrs[NDIRECT];
    var x := Entered(sb, v, j, r).disk[ind];
    assert Entered(sb, v, j, r).disk == d[ind := x];
    DataWriteKeepsMeta(sb, d, ind, x);
    forall b | 0 <= b < sb.size
      ensures Marked(sb, Entered(sb, v, j, r).disk, b) == (b == r || Marked(sb, v.disk, b))
    {
      assert Marked(sb, d[ind := x], b) == Marked(sb, d, b);
    }
  }

  /** The slots that block bn needs. */
  lemma WantedOne(bn: nat)
    requires bn < MAXFILE
    ensures WantedSlots(bn, bn + 1) == if bn < NDIRECT then {bn} else {NDIRECT, bn + 1}
  {
  }

  /** A full map: no free block is left. */
  lemma FullIsEmpty(sb: Super, disk: Disk)
    requires Full(sb, disk)
    ensures FreeBlocks(sb, disk) == {}
  {
  }

  lemma StarvedHere(sb: Super, v: View, lo: nat, hi: nat, s: nat)
    requires Sized(sb, v) && Full(sb, v.disk) && s < SLOTS && Wanted(s, lo, hi) && RefOf(v.disk, v.ip, s) == 0
    ensures Starved(sb, v, v, lo, hi)
  {
    hide RefOf;
    FullIsEmpty(sb, v.disk);
    assert s in WantedSlots(lo, hi) && s !in UsedSlots(v);
  }

  /** Block bn has its indirect block but itself no block. */
  lemma StarvedAfter(sb: Super, v: View, v': View, bn: nat)
    requires Filled(sb, v, v', {NDIRECT}) && NDIRECT <= bn < MAXFILE && Full(sb, v'.disk)
    requires RefOf(v'.disk, v'.ip, bn + 1) == 0
    ensures Starved(sb, v, v', bn, bn + 1)
  {
    hide RefOf, Stock;
    FullIsEmpty(sb, v'.disk);
    WantedOne(bn);
    hide WantedSlots;
    assert bn + 1 !in UsedSlots(v');
  }

  lemma FilledBoth(sb: Super, v: View, v1: View, v2: View, bn: nat)
    requires Filled(sb, v, v1, {NDIRECT}) && Filled(sb, v1, v2, {bn + 1}) && NDIRECT <= bn < MAXFILE
    ensures Fed(sb, v, v2, bn, bn + 1)
  {
    hide UsedSlots, Stock;
    WantedOne(bn);
    hide WantedSlots;
  }

  /** A slot that has a block already. */
  lemma FilledHere(sb: Super, v: View, s: nat)
    requires Sized(sb, v) && s < SLOTS && RefOf(v.disk, v.ip, s) != 0
    ensures Filled(sb, v, v, {s})
  {
    hide RefOf, Stock;
    assert UsedSlots(v) == UsedSlots(v) + {s};
  }

  lemma StoredRefs(v: View, bn: nat, data: Block, s: nat)
    requires v.ip.Ok() && bn < MAXFILE && RefAt(v, bn) < |v.disk| && RefAt(v, bn) != v.ip.addrs[NDIRECT] && s < SLOTS
    ensures RefOf(Stored(v, bn, data).disk, v.ip, s) == RefOf(v.disk, v.ip, s)
  {
    hide WordAt;
  }

  lemma StoredSpace(sb: Super, v: View, owner: Owners, bn: nat, data: Block)
    requires Inv(sb, v, owner) && bn < MAXFILE && Present(v, bn)
    ensures RefAt(v, bn) < |v.disk| && SameSpace(sb, v, Stored(v, bn, data))
  {
    hide Inv, Marked, DiskInode, RefOf;
    InvBasics(sb, v, owner);
    var r := RefAt(v, bn);
    OwnRefs(sb, v, owner, SlotOf(bn));
    IndirectIsNoData(sb, v, owner, bn);
    DataWriteKeepsMeta(sb, v.disk, r, data);
    forall s | 0 <= s < SLOTS ensures RefOf(Stored(v, bn, data).disk, v.ip, s) == RefOf(v.disk, v.ip, s) {
      StoredRefs(v, bn, data, s);
    }
  }

  lemma UpdatedSpace(sb: Super, v: View, owner: Owners)
    requires Inv(sb, v, owner)
    ensures SameSpace(sb, v, Updated(sb, v))
  {
    hide Inv, Updated, Marked, RefOf;
    InvBasics(sb, v, owner);
    UpdatedElsewhere(sb, v);
    forall t | 0 <= t < SLOTS ensures RefOf(Updated(sb, v).disk, Updated(sb, v).ip, t) == RefOf(v.disk, v.ip, t) {
      UpdatedRefs(sb, v, owner, t);
    }
  }

  lemma ResizedSpace(sb: Super, v: View, size: Word)
    requires Sized(sb, v)
    ensures SameSpace(sb, v, v.(ip := v.ip.(size := size)))
  {
    hide Marked, WordAt;
  }

  lemma SameSpaceTwice(sb: Super, v: View, v1: View, v2: View)
    requires SameSpace(sb, v, v1) && SameSpace(sb, v1, v2)
    ensures SameSpace(sb, v, v2)
  {
    hide Marked, RefOf;
  }

  // ----- writei

  /** The block after the last of those that hold the n bytes from off on. */
  function Upto(off: nat, n: nat): nat {
    if n == 0 then off / BSIZE else (off + n - 1) / BSIZE + 1
  }

  lemma UptoStep(off: nat, tot: nat, n: nat)
    requires tot < n && AtBoundary(off, tot)
    ensures off / BSIZE <= Upto(off, tot) == (off + tot) / BSIZE < Upto(off, n)
    ensures Upto(off, tot + Portion(off + tot, n - tot)) == Upto(off, tot) + 1
    ensures off / BSIZE < Upto(off, tot) || tot == 0 || off / BSIZE == Upto(off, tot)
  {
  }

  lemma PatchedSpace(sb: Super, v: View, owner: Owners, o: nat, piece: seq<Byte>)
    requires Inv(sb, v, owner) && o < MAXBYTES && WithinBlock(o, |piece|) && Present(v, o / BSIZE)
    ensures SameSpace(sb, v, Patched(v, o, piece))
  {
    hide Inv, SameSpace, Stored;
    InvBasics(sb, v, owner);
    StoredSpace(sb, v, owner, o / BSIZE, Spliced(BlockOf(v, o / BSIZE), o % BSIZE, piece));
  }

  lemma ResizedSame(sb: Super, v: View, owner: Owners, size: Word)
    requires Inv(sb, v, owner)
    ensures v.inum < sb.ninodes && Sized(sb, v) && SameSpace(sb, v, Resized(sb, v, size))
  {
    hide Inv, SameSpace, Updated;
    InvBasics(sb, v, owner);
    ResizedSpace(sb, v, size);
    ResizeKeeps(sb, v, owner, size);
    UpdatedSpace(sb, v.(ip := v.ip.(size := size)), owner);
    SameSpaceTwice(sb, v, v.(ip := v.ip.(size := size)), Resized(sb, v, size));
  }

  /** One more block, when the blocks before it are there. */
  lemma FedStep(sb: Super, v0: View, v: View, v': View, off: nat, tot: nat, n: nat)
    requires tot < n && AtBoundary(off, tot) && Fed(sb, v0, v, off / BSIZE, Upto(off, tot))
    ensures var bn, tot' := (off + tot) / BSIZE, tot + Portion(off + tot, n - tot);
            && (Fed(sb, v, v', bn, bn + 1) ==> Fed(sb, v0, v', off / BSIZE, Upto(off, tot')))
            && (Starved(sb, v, v', bn, bn + 1) ==> Starved(sb, v0, v', off / BSIZE, Upto(off, n)))
  {
    hide Fed, Starved, Portion;
    UptoStep(off, tot, n);
    var bn := (off + tot) / BSIZE;
    if Fed(sb, v, v', bn, bn + 1) {
      FedTwice(sb, v0, v, v', off / BSIZE, bn, bn, bn + 1);
    }
    if Starved(sb, v, v', bn, bn + 1) {
      FedThenStarved(sb, v0, v, v', off / BSIZE, bn, bn, bn + 1, Upto(off, n));
    }
  }

  /** A write that goes on where the one before ended. */
  lemma FedOn(sb: Super, v0: View, v: View, v': View, off: nat, i: nat, n: nat)
    requires n > 0 && Fed(sb, v0, v, off / BSIZE, Upto(off, i))
    ensures Fed(sb, v, v', (off + i) / BSIZE, Upto(off + i, n)) ==> Fed(sb, v0, v', off / BSIZE, Upto(off, i + n))
    ensures Starved(sb, v, v', (off + i) / BSIZE, Upto(off + i, n)) ==>
              Starved(sb, v0, v', off / BSIZE, Upto(off, i + n))
  {
    hide Fed, Starved;
    UptoOn(off, i, n);
    var a, b, c, d := off / BSIZE, Upto(off, i), (off + i) / BSIZE, Upto(off + i, n);
    if Fed(sb, v, v', c, d) {
      FedTwice(sb, v0, v, v', a, b, c, d);
    }
    if Starved(sb, v, v', c, d) {
      FedThenStarved(sb, v0, v, v', a, b, c, d, d);
    }
  }

  lemma UptoOn(off: nat, i: nat, n: nat)
    requires n > 0
    ensures Upto(off + i, n) == Upto(off, i + n) && off / BSIZE <= (off + i) / BSIZE <= Upto(off, i) <= Upto(off, i + n)
    ensures (off / BSIZE < Upto(off, i) || (off + i) / BSIZE == off / BSIZE) && (off + i) / BSIZE < Upto(off, i + n)
  {
  }

  lemma StarvedFurther(sb: Super, v: View, v': View, off: nat, i: nat, n: nat)
    requires Starved(sb, v, v', off / BSIZE, Upto(off, i)) && 0 < i <= n
    ensures Starved(sb, v, v', off / BSIZE, Upto(off, n))
  {
    hide UsedSlots, FreeBlocks, WantedSlots;
    WantedMore(off / BSIZE, Upto(off, i), Upto(off, n));
  }
}
