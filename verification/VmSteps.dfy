/** The steps of kalloc, kfree, mappages and deallocuvm on values, with an account of every frame. */
module VmSteps {
  import opened Params
  import opened PageTables

  /** kfree's fill. */
  function Junk(): (f: Frame) {
    seq<Word>(NPT, _ => 0x0101_0101)
  }

  ghost function FreeSet(free: seq<nat>): set<nat> {
    set f | f in free
  }

  ghost predicate NoRepeats(free: seq<nat>) {
    forall i, j :: 0 <= i < j < |free| ==> free[i] != free[j]
  }

  /** The frames in `total` are free, owned or held in a local variable, each in exactly one way;
      all other memory is as in mem0. */
  ghost predicate Books(mem: Memory, free: seq<nat>, own: set<nat>, held: set<nat>, mem0: Memory, total: set<nat>,
                        first: nat, last: nat) {
    && |mem| == |mem0| && 0 < first <= last <= |mem| <= ALL_PAGES
    && NoRepeats(free) && FreeSet(free) !! own && FreeSet(free) !! held && own !! held
    && FreeSet(free) + own + held == total
    && (forall f :: f in total ==> first <= f < last)
    && (forall f :: 0 <= f < |mem| && f !in total ==> mem[f] == mem0[f])
  }

  lemma Pop(mem: Memory, free: seq<nat>, own: set<nat>, held: set<nat>, mem0: Memory, total: set<nat>, first: nat,
            last: nat)
    requires Books(mem, free, own, held, mem0, total, first, last) && free != []
    ensures Books(mem, free[1..], own, held + {free[0]}, mem0, total, first, last)
    ensures free[0] !in own && free[0] !in held && 0 < free[0] < |mem|
  {
    assert free == [free[0]] + free[1..];
    assert FreeSet(free) == FreeSet(free[1..]) + {free[0]};
  }

  lemma Push(mem: Memory, free: seq<nat>, own: set<nat>, held: set<nat>, mem0: Memory, total: set<nat>, first: nat,
             last: nat, f: nat)
    requires Books(mem, free, own, held, mem0, total, first, last) && f in held
    ensures first <= f < last && Books(mem[f := Junk()], [f] + free, own, held - {f}, mem0, total, first, last)
  {
    assert f in total && f !in FreeSet(free);
    assert FreeSet([f] + free) == FreeSet(free) + {f};
  }

  lemma Write(mem: Memory, free: seq<nat>, own: set<nat>, held: set<nat>, mem0: Memory, total: set<nat>, first: nat,
              last: nat, f: nat, x: Frame)
    requires Books(mem, free, own, held, mem0, total, first, last) && f in own + held
    ensures f < |mem| && Books(mem[f := x], free, own, held, mem0, total, first, last)
  {
    assert f in total;
  }

  lemma Gain(mem: Memory, free: seq<nat>, own: set<nat>, held: set<nat>, mem0: Memory, total: set<nat>, first: nat,
             last: nat, f: nat)
    requires Books(mem, free, own, held, mem0, total, first, last) && f in held
    ensures Books(mem, free, own + {f}, held - {f}, mem0, total, first, last)
  {
  }

  lemma Lose(mem: Memory, free: seq<nat>, own: set<nat>, held: set<nat>, mem0: Memory, total: set<nat>, first: nat,
             last: nat, f: nat)
    requires Books(mem, free, own, held, mem0, total, first, last) && f in own
    ensures Books(mem, free, own - {f}, held + {f}, mem0, total, first, last)
  {
  }

  /** Every page has the entry it had before. */
  ghost predicate SameMap(mem: Memory, mem': Memory, dir: nat) {
    dir < |mem| == |mem'| && forall v :: 0 <= v < ALL_PAGES ==> PteOf(mem', dir, v) == PteOf(mem, dir, v)
  }

  ghost function PagesOf(owner: Owner): set<nat> {
    set f | f in owner && owner[f].Page?
  }

  ghost predicate SameData(mem: Memory, mem': Memory, frames: set<nat>) {
    |mem'| == |mem| && forall f :: f in frames && f < |mem| ==> mem'[f] == mem[f]
  }

  lemma SameDataSelf(mem: Memory, frames: set<nat>)
    ensures SameData(mem, mem, frames)
  {
  }

  lemma SameDataTwice(m0: Memory, m1: Memory, m2: Memory, frames: set<nat>, frames1: set<nat>)
    requires SameData(m0, m1, frames) && SameData(m1, m2, frames1) && frames <= frames1
    ensures SameData(m0, m2, frames)
  {
  }

  lemma HeldInMemory(mem: Memory, free: seq<nat>, own: set<nat>, held: set<nat>, mem0: Memory, total: set<nat>,
                     first: nat, last: nat, f: nat)
    requires Books(mem, free, own, held, mem0, total, first, last) && f in held + own
    ensures 0 < f < |mem| <= ALL_PAGES
  {
    assert f in total;
  }

  lemma HoldsBasics(mem: Memory, dir: nat, owner: Owner, free: seq<nat>, held: set<nat>, mem0: Memory,
                    total: set<nat>, first: nat, last: nat)
    requires Inv(mem, dir, owner) && Books(mem, free, owner.Keys, held, mem0, total, first, last)
    ensures dir < |mem| <= ALL_PAGES && dir in owner
  {
  }

  lemma PresentIsTable(mem: Memory, dir: nat, owner: Owner, vpn: nat)
    requires Inv(mem, dir, owner) && vpn < ALL_PAGES
    ensures HasTable(mem, dir, vpn) == IsPresent(mem[dir][vpn / NPT])
    ensures IsPresent(mem[dir][vpn / NPT]) ==> Open(mem[dir][vpn / NPT])
  {
    assert TableOwned(mem, dir, owner, vpn / NPT);
  }

  /** walkpgdir's new table. */
  lemma NewTable(mem: Memory, free: seq<nat>, held: set<nat>, mem0: Memory, total: set<nat>, first: nat, last: nat,
                 dir: nat, owner: Owner, d: nat, t: nat)
    requires Inv(mem, dir, owner) && Books(mem, free, owner.Keys, held, mem0, total, first, last)
    requires d < NPT && !IsPresent(mem[dir][d]) && t in held
    ensures t < |mem| <= ALL_PAGES && t !in owner
    ensures var mem', owner' := WithTable(mem, dir, d, t), owner[t := Table(d)];
            && Inv(mem', dir, owner') && Books(mem', free, owner'.Keys, held - {t}, mem0, total, first, last)
            && SameMap(mem, mem', dir) && SameData(mem, mem', PagesOf(owner) + held - {t})
  {
    HeldInMemory(mem, free, owner.Keys, held, mem0, total, first, last, t);
    TableKeeps(mem, dir, owner, d, t);
    hide Inv;
    var mem', owner' := WithTable(mem, dir, d, t), owner[t := Table(d)];
    forall v | 0 <= v < ALL_PAGES ensures PteOf(mem', dir, v) == PteOf(mem, dir, v) {
      TablePte(mem, dir, owner, d, t, v);
    }
    assert owner'.Keys == owner.Keys + {t};
  }

  // ----- mappages

  /** Pages vpn, vpn+1, ..., vpn+k-1 are mapped to frames pa, pa+1, ...; all others are as before. */
  ghost predicate MappedRange(mem: Memory, mem': Memory, dir: nat, vpn: nat, k: nat, pa: nat, perm: nat)
    requires pa + k <= ALL_PAGES && perm < PGSIZE
  {
    && dir < |mem| == |mem'|
    && forall v :: 0 <= v < ALL_PAGES ==>
         PteOf(mem', dir, v) == if vpn <= v < vpn + k then Entry(pa + (v - vpn), perm) else PteOf(mem, dir, v)
  }

  /** owner' has what owner has, and beyond it only page tables and the frames of pages lo, ..., hi-1. */
  ghost predicate Extends(owner: Owner, owner': Owner, lo: nat, hi: nat) {
    && (forall f :: f in owner ==> f in owner' && owner'[f] == owner[f])
    && (forall f :: f in owner' && f !in owner ==> owner'[f].Table? || (owner'[f].Page? && lo <= owner'[f].vpn < hi))
  }

  /** mappages writes one entry: a user page takes over the held frame f. */
  lemma MapEntry(mem: Memory, free: seq<nat>, held: set<nat>, mem0: Memory, total: set<nat>, first: nat, last: nat,
                 dir: nat, owner: Owner, vpn: nat, f: nat, perm: nat)
    requires Inv(mem, dir, owner) && Books(mem, free, owner.Keys, held, mem0, total, first, last)
    requires vpn < ALL_PAGES && HasTable(mem, dir, vpn) && !IsPresent(PteOf(mem, dir, vpn)) && f < ALL_PAGES
    requires perm < PGSIZE
    requires vpn < USER_PAGES ==> f in held
    ensures var mem' := WithPte(mem, dir, vpn, Entry(f, perm));
            var owner' := if vpn < USER_PAGES then owner[f := Page(vpn)] else owner;
            && Inv(mem', dir, owner') && MappedRange(mem, mem', dir, vpn, 1, f, perm)
            && SameData(mem, mem', PagesOf(owner) + held) && mem'[dir] == mem[dir]
            && Books(mem', free, owner'.Keys, if vpn < USER_PAGES then held - {f} else held, mem0, total, first, last)
            && Extends(owner, owner', vpn, vpn + 1)
  {
    hide RoleOk, PageOwned;
    EntryParts(f, perm);
    assert vpn < USER_PAGES ==> f < |mem| && f !in owner by {
      if vpn < USER_PAGES {
        HeldInMemory(mem, free, owner.Keys, held, mem0, total, first, last, f);
      }
    }
    PteKeeps(mem, dir, owner, vpn, Entry(f, perm));
    var mem', t := WithPte(mem, dir, vpn, Entry(f, perm)), TableOf(mem, dir, vpn);
    forall v | 0 <= v < ALL_PAGES
      ensures PteOf(mem', dir, v) == if v == vpn then Entry(f, perm) else PteOf(mem, dir, v)
    {
      PteSet(mem, dir, owner, vpn, Entry(f, perm), v);
    }
    assert TableOwned(mem, dir, owner, vpn / NPT);
    assert t in owner && owner[t] == Table(vpn / NPT);
    assert owner[f := Page(vpn)].Keys == owner.Keys + {f};
  }

  lemma MappedNone(mem: Memory, dir: nat, vpn: nat, pa: nat, perm: nat)
    requires dir < |mem| && pa <= ALL_PAGES && perm < PGSIZE
    ensures MappedRange(mem, mem, dir, vpn, 0, pa, perm)
  {
  }

  /** k pages and then one more, or none. */
  lemma MappedStep(mem: Memory, m1: Memory, m2: Memory, dir: nat, vpn: nat, k: nat, pa: nat, perm: nat)
    requires pa + k < ALL_PAGES && perm < PGSIZE && MappedRange(mem, m1, dir, vpn, k, pa, perm)
    ensures MappedRange(m1, m2, dir, vpn + k, 1, pa + k, perm) ==> MappedRange(mem, m2, dir, vpn, k + 1, pa, perm)
    ensures SameMap(m1, m2, dir) ==> MappedRange(mem, m2, dir, vpn, k, pa, perm)
  {
    hide PteOf, Entry;
  }

  lemma StillAbsent(mem: Memory, m1: Memory, dir: nat, vpn: nat, k: nat, n: nat, pa: nat, perm: nat)
    requires k < n && vpn + n <= ALL_PAGES && pa + k <= ALL_PAGES && perm < PGSIZE
    requires MappedRange(mem, m1, dir, vpn, k, pa, perm)
    requires forall v :: vpn <= v < vpn + n ==> !IsPresent(PteOf(mem, dir, v))
    ensures !IsPresent(PteOf(m1, dir, vpn + k))
  {
    hide PteOf, Entry;
  }

  lemma ExtendsSelf(o: Owner, lo: nat, hi: nat)
    ensures Extends(o, o, lo, hi)
  {
  }

  lemma ExtendsByTable(o: Owner, o1: Owner, t: nat, d: nat, lo: nat, hi: nat)
    requires o1 == o || (t !in o && o1 == o[t := Table(d)])
    ensures Extends(o, o1, lo, hi)
  {
  }

  lemma ExtendsTwice(o: Owner, o1: Owner, o2: Owner, lo: nat, hi: nat, lo1: nat, hi1: nat)
    requires Extends(o, o1, lo, hi) && Extends(o1, o2, lo1, hi1) && lo <= lo1 && hi1 <= hi
    ensures Extends(o, o2, lo, hi) && PagesOf(o) <= PagesOf(o1)
  {
  }

  // ----- deallocuvm

  function PgUp(sz: nat): nat {
    (sz + PGSIZE - 1) / PGSIZE
  }

  /** The present pages among lo, ..., hi-1 are gone and nothing else has changed. */
  ghost predicate Unmapped(mem: Memory, mem': Memory, dir: nat, lo: nat, hi: nat) {
    && dir < |mem| == |mem'|
    && forall v :: 0 <= v < ALL_PAGES ==>
         PteOf(mem', dir, v) == if lo <= v < hi && IsPresent(PteOf(mem, dir, v)) then 0 else PteOf(mem, dir, v)
  }

  function Without(owner: Owner, lo: nat, hi: nat): Owner {
    map f | f in owner && !(owner[f].Page? && lo <= owner[f].vpn < hi) :: owner[f]
  }

  /** deallocuvm frees one present page. */
  lemma UnmapEntry(mem: Memory, dir: nat, owner: Owner, vpn: nat)
    requires Inv(mem, dir, owner) && vpn < USER_PAGES && HasTable(mem, dir, vpn) && IsPresent(PteOf(mem, dir, vpn))
    ensures var f, t := FrameOf(PteOf(mem, dir, vpn)), TableOf(mem, dir, vpn);
            && f in owner && owner[f] == Page(vpn) && f < |mem| && t in owner && t != f && owner[t].Table?
    ensures var f := FrameOf(PteOf(mem, dir, vpn)); var mem1 := mem[f := Junk()];
            && HasTable(mem1, dir, vpn) && TableOf(mem1, dir, vpn) == TableOf(mem, dir, vpn)
            && var mem' := WithPte(mem1, dir, vpn, 0);
            && Inv(mem', dir, owner - {f}) && Unmapped(mem, mem', dir, vpn, vpn + 1)
            && SameData(mem, mem', PagesOf(owner - {f}))
  {
    var f := FrameOf(PteOf(mem, dir, vpn));
    assert PageOwned(mem, dir, owner, vpn) && TableOwned(mem, dir, owner, vpn / NPT);
    assert RoleOk(mem, dir, f, owner[f]);
    var mem1 := mem[f := Junk()];
    SameSpace(mem, mem1, dir, owner);
    SamePte(mem, mem1, dir, owner, vpn);
    PteKeeps(mem1, dir, owner, vpn, 0);
    var mem' := WithPte(mem1, dir, vpn, 0);
    forall v | 0 <= v < ALL_PAGES ensures PteOf(mem', dir, v) == if v == vpn then 0 else PteOf(mem, dir, v) {
      PteSet(mem1, dir, owner, vpn, 0, v);
      SamePte(mem, mem1, dir, owner, v);
    }
  }

  /** One more page handled, present or not. */
  lemma UnmappedOne(mem: Memory, m1: Memory, m2: Memory, dir: nat, lo: nat, i: nat)
    requires Unmapped(mem, m1, dir, lo, i) && lo <= i < ALL_PAGES
    requires if IsPresent(PteOf(m1, dir, i)) then Unmapped(m1, m2, dir, i, i + 1) else m2 == m1
    ensures Unmapped(mem, m2, dir, lo, i + 1)
  {
  }

  /** Where there is no page table, all its pages are handled at once. */
  lemma UnmappedSkip(mem: Memory, m1: Memory, dir: nat, owner: Owner, lo: nat, i: nat, j: nat)
    requires Inv(m1, dir, owner) && Unmapped(mem, m1, dir, lo, i) && lo <= i <= j < ALL_PAGES && !HasTable(m1, dir, i)
    requires i / NPT == j / NPT
    ensures Unmapped(mem, m1, dir, lo, j + 1)
  {
    forall v | i <= v <= j ensures PteOf(m1, dir, v) == 0 {
      assert v / NPT == i / NPT;
    }
  }

  lemma WithoutOne(mem: Memory, dir: nat, owner0: Owner, owner: Owner, lo: nat, i: nat)
    requires Inv(mem, dir, owner) && owner == Without(owner0, lo, i) && lo <= i < USER_PAGES
    ensures Without(owner0, lo, i + 1)
            == if IsPresent(PteOf(mem, dir, i)) then owner - {FrameOf(PteOf(mem, dir, i))} else owner
  {
    assert PageOwned(mem, dir, owner, i);
    forall f | f in owner && owner[f] == Page(i)
      ensures IsPresent(PteOf(mem, dir, i)) && f == FrameOf(PteOf(mem, dir, i))
    {
      assert RoleOk(mem, dir, f, owner[f]);
    }
  }

  lemma WithoutSkip(mem: Memory, dir: nat, owner0: Owner, owner: Owner, lo: nat, i: nat, j: nat)
    requires Inv(mem, dir, owner) && owner == Without(owner0, lo, i) && lo <= i <= j < USER_PAGES
    requires !HasTable(mem, dir, i)
    requires i / NPT == j / NPT
    ensures Without(owner0, lo, j + 1) == owner
  {
    forall f | f in owner && owner[f].Page? ensures !(i <= owner[f].vpn <= j) {
      assert RoleOk(mem, dir, f, owner[f]);
      var v := owner[f].vpn;
      assert v / NPT == i / NPT || v < i || j < v;
    }
  }

  lemma UnmappedNone(mem: Memory, dir: nat, owner: Owner, lo: nat)
    requires dir < |mem|
    ensures Unmapped(mem, mem, dir, lo, lo) && Without(owner, lo, lo) == owner
  {
  }

  lemma FramesWithout(mem: Memory, free: seq<nat>, owner: Owner, held: set<nat>, mem0: Memory, total: set<nat>,
                      first: nat, last: nat, f: nat)
    requires Books(mem, free, owner.Keys, held, mem0, total, first, last) && f in owner
    ensures Books(mem, free, (owner - {f}).Keys, held + {f}, mem0, total, first, last)
  {
    Lose(mem, free, owner.Keys, held, mem0, total, first, last, f);
    assert (owner - {f}).Keys == owner.Keys - {f};
  }

  /** The last page before hi whose entry is in the same table as page i. */
  function SkipTo(i: nat, hi: nat): nat
    requires i < hi
  {
    if (i / NPT + 1) * NPT <= hi then (i / NPT + 1) * NPT - 1 else hi - 1
  }

  lemma SkipInTable(i: nat, hi: nat)
    requires i < hi
    ensures i <= SkipTo(i, hi) < hi && SkipTo(i, hi) / NPT == i / NPT
    ensures SkipTo(i, hi) == (i / NPT + 1) * NPT - 1 || ((i / NPT + 1) * NPT > hi && SkipTo(i, hi) + 1 == hi)
  {
  }

  /** deallocuvm's effect: the pages lo, ..., hi-1 are unmapped, their frames given up, and the frames
      of all other pages and those held keep their contents. */
  ghost predicate Cut(mem: Memory, mem': Memory, dir: nat, owner: Owner, owner': Owner, lo: nat, hi: nat,
                      held: set<nat>) {
    && Unmapped(mem, mem', dir, lo, hi) && owner' == Without(owner, lo, hi)
    && SameData(mem, mem', PagesOf(owner') + held)
    && mem'[dir] == mem[dir]
  }

  lemma CutNone(mem: Memory, dir: nat, owner: Owner, lo: nat, held: set<nat>)
    requires dir < |mem|
    ensures Cut(mem, mem, dir, owner, owner, lo, lo, held)
  {
    UnmappedNone(mem, dir, owner, lo);
  }

  lemma CutSkip(mem: Memory, m1: Memory, dir: nat, owner0: Owner, owner: Owner, lo: nat, i: nat, j: nat, held: set<nat>)
    requires Inv(m1, dir, owner) && Cut(mem, m1, dir, owner0, owner, lo, i, held) && lo <= i <= j < USER_PAGES
    requires !HasTable(m1, dir, i)
    requires i / NPT == j / NPT
    ensures Cut(mem, m1, dir, owner0, owner, lo, j + 1, held)
  {
    hide Inv, Unmapped, Without, HasTable;
    UnmappedSkip(mem, m1, dir, owner, lo, i, j);
    WithoutSkip(m1, dir, owner0, owner, lo, i, j);
  }

  lemma CutAbsent(mem: Memory, m1: Memory, dir: nat, owner0: Owner, owner: Owner, lo: nat, i: nat, held: set<nat>)
    requires Inv(m1, dir, owner) && Cut(mem, m1, dir, owner0, owner, lo, i, held) && lo <= i < USER_PAGES
    requires !IsPresent(PteOf(m1, dir, i))
    ensures Cut(mem, m1, dir, owner0, owner, lo, i + 1, held)
  {
    hide Inv, Unmapped, Without, PteOf;
    UnmappedOne(mem, m1, m1, dir, lo, i);
    WithoutOne(m1, dir, owner0, owner, lo, i);
  }

  lemma CutOne(mem: Memory, m1: Memory, m2: Memory, dir: nat, owner0: Owner, owner: Owner, lo: nat, i: nat,
               held: set<nat>)
    requires Inv(m1, dir, owner) && Cut(mem, m1, dir, owner0, owner, lo, i, held) && lo <= i < USER_PAGES
    requires IsPresent(PteOf(m1, dir, i))
    requires var o2 := owner - {FrameOf(PteOf(m1, dir, i))};
             Unmapped(m1, m2, dir, i, i + 1) && SameData(m1, m2, PagesOf(o2) + held) && m2[dir] == m1[dir]
    ensures Cut(mem, m2, dir, owner0, owner - {FrameOf(PteOf(m1, dir, i))}, lo, i + 1, held)
  {
    hide Inv, Unmapped, Without, PteOf;
    UnmappedOne(mem, m1, m2, dir, lo, i);
    WithoutOne(m1, dir, owner0, owner, lo, i);
  }

  lemma PteIn(mem: Memory, dir: nat, vpn: nat)
    requires dir < |mem| && vpn < ALL_PAGES && HasTable(mem, dir, vpn)
    ensures PteOf(mem, dir, vpn) == mem[TableOf(mem, dir, vpn)][vpn % NPT]
  {
  }

  lemma OwnedNotHeld(mem: Memory, free: seq<nat>, own: set<nat>, held: set<nat>, mem0: Memory, total: set<nat>,
                     first: nat, last: nat, f: nat)
    requires Books(mem, free, own, held, mem0, total, first, last) && f in own
    ensures f !in held
  {
  }

  // ----- allocuvm

  /** Pages lo, ..., hi-1 are new, user-writable and zero; the others are as before. */
  ghost predicate NewPages(mem: Memory, mem': Memory, dir: nat, lo: nat, hi: nat) {
    && dir < |mem| == |mem'|
    && forall v :: 0 <= v < ALL_PAGES ==>
      if lo <= v < hi then ZeroPage(mem', dir, v) else PteOf(mem', dir, v) == PteOf(mem, dir, v)
  }

  ghost predicate ZeroPage(mem: Memory, dir: nat, v: nat)
    requires dir < |mem| && v < ALL_PAGES
  {
    var pte := PteOf(mem, dir, v);
    IsPresent(pte) && FlagsOf(pte) == 7 && FrameOf(pte) < |mem| && mem[FrameOf(pte)] == Zeroed()
  }

  /** Two memories agree on what is mapped. */
  ghost predicate SamePages(mem: Memory, mem': Memory, dir: nat) {
    && dir < |mem| == |mem'|
    && forall v :: 0 <= v < ALL_PAGES ==>
         (IsPresent(PteOf(mem, dir, v)) || IsPresent(PteOf(mem', dir, v)) ==> PteOf(mem', dir, v) == PteOf(mem, dir, v))
  }

  ghost predicate Absent(mem: Memory, dir: nat, lo: nat, hi: nat) {
    dir < |mem| && forall v :: lo <= v < hi && v < ALL_PAGES ==> !IsPresent(PteOf(mem, dir, v))
  }

  lemma NewNone(mem: Memory, dir: nat, lo: nat)
    requires dir < |mem|
    ensures NewPages(mem, mem, dir, lo, lo)
  {
  }

  /** Zeroing a held frame changes no mapping. */
  lemma HeldWrite(mem: Memory, free: seq<nat>, held: set<nat>, mem0: Memory, total: set<nat>, first: nat, last: nat,
                  dir: nat, owner: Owner, f: nat, x: Frame)
    requires Inv(mem, dir, owner) && Books(mem, free, owner.Keys, held, mem0, total, first, last) && f in held
    ensures 0 < f < |mem| <= ALL_PAGES && f !in owner && Inv(mem[f := x], dir, owner)
    ensures Books(mem[f := x], free, owner.Keys, held, mem0, total, first, last)
    ensures SameMap(mem, mem[f := x], dir) && SameData(mem, mem[f := x], PagesOf(owner) + held - {f})
  {
    hide RoleOk, PageOwned, TableOwned, PteOf;
    HeldInMemory(mem, free, owner.Keys, held, mem0, total, first, last, f);
    Write(mem, free, owner.Keys, held, mem0, total, first, last, f, x);
    SameSpace(mem, mem[f := x], dir, owner);
    forall v | 0 <= v < ALL_PAGES ensures PteOf(mem[f := x], dir, v) == PteOf(mem, dir, v) {
      SamePte(mem, mem[f := x], dir, owner, v);
    }
  }

  /** m2 is m1 with frame f zeroed, m3 has page i mapped to it. */
  lemma NewOne(mem: Memory, m1: Memory, m2: Memory, m3: Memory, dir: nat, owner: Owner, lo: nat, i: nat, f: nat,
               held: set<nat>)
    requires Inv(m1, dir, owner) && NewPages(mem, m1, dir, lo, i) && lo <= i < USER_PAGES && f < |m1| <= ALL_PAGES
    requires f !in owner
    requires m2 == m1[f := Zeroed()] && SameMap(m1, m2, dir) && MappedRange(m2, m3, dir, i, 1, f, 6)
    requires SameData(m2, m3, PagesOf(owner) + held) && f in held
    ensures NewPages(mem, m3, dir, lo, i + 1)
  {
    EntryParts(f, 6);
    forall v | lo <= v < i ensures ZeroPage(m3, dir, v) {
      assert ZeroPage(m1, dir, v) && PageOwned(m1, dir, owner, v);
    }
    hide Inv;
    forall v | 0 <= v < ALL_PAGES && !(lo <= v < i + 1) ensures PteOf(m3, dir, v) == PteOf(mem, dir, v) {
      assert PteOf(m1, dir, v) == PteOf(mem, dir, v);
    }
  }

  /** allocuvm's rollback: after i-lo pages were added, deallocuvm takes them away again. */
  lemma RolledBack(mem: Memory, m1: Memory, m2: Memory, m3: Memory, dir: nat, o: Owner, o1: Owner, o2: Owner,
                   lo: nat, i: nat, hi: nat, held: set<nat>)
    requires Inv(mem, dir, o) && Absent(mem, dir, lo, hi) && lo <= i <= hi <= USER_PAGES
    requires NewPages(mem, m1, dir, lo, i) && SameMap(m1, m2, dir) && Extends(o, o1, lo, hi)
    requires Cut(m2, m3, dir, o1, o2, lo, hi, held)
    ensures SamePages(mem, m3, dir) && Extends(o, o2, 0, 0) && PagesOf(o) <= PagesOf(o2)
  {
    forall v | 0 <= v < ALL_PAGES
      ensures IsPresent(PteOf(mem, dir, v)) || IsPresent(PteOf(m3, dir, v)) ==> PteOf(m3, dir, v) == PteOf(mem, dir, v)
    {
      assert PteOf(m2, dir, v) == PteOf(m1, dir, v);
      assert lo <= v < i ==> ZeroPage(m1, dir, v);
    }
    forall f | f in o ensures f in o2 && o2[f] == o[f] {
      assert RoleOk(mem, dir, f, o[f]);
    }
  }

  lemma NotYet(mem: Memory, m1: Memory, m2: Memory, dir: nat, lo: nat, i: nat, hi: nat)
    requires Absent(mem, dir, lo, hi) && NewPages(mem, m1, dir, lo, i) && SameMap(m1, m2, dir)
    requires lo <= i < hi <= USER_PAGES
    ensures dir < |m2| && !IsPresent(PteOf(m2, dir, i))
  {
    hide PteOf;
    assert PteOf(m2, dir, i) == PteOf(m1, dir, i) == PteOf(mem, dir, i);
  }

  lemma SameMapThen(mem: Memory, m1: Memory, m2: Memory, dir: nat)
    requires SameMap(m1, m2, dir)
    ensures SameMap(mem, m1, dir) ==> SameMap(mem, m2, dir)
    ensures SamePages(mem, m1, dir) ==> SamePages(mem, m2, dir)
  {
    hide PteOf;
  }

  lemma MappedNothing(mem: Memory, m1: Memory, dir: nat, vpn: nat, pa: nat, perm: nat)
    requires pa <= ALL_PAGES && perm < PGSIZE && MappedRange(mem, m1, dir, vpn, 0, pa, perm)
    ensures SameMap(mem, m1, dir)
  {
    hide PteOf;
  }

  lemma SameMapSelf(mem: Memory, dir: nat, owner: Owner)
    requires Inv(mem, dir, owner)
    ensures SameMap(mem, mem, dir)
  {
  }

  lemma CutData(mem: Memory, mem': Memory, dir: nat, owner: Owner, owner': Owner, lo: nat, hi: nat, held: set<nat>)
    requires Cut(mem, mem', dir, owner, owner', lo, hi, held)
    ensures SameData(mem, mem', PagesOf(owner') + held)
  {
  }

  // ----- freevm

  /** The directory and the tables from entry i on. */
  ghost function Remaining(owner: Owner, i: nat): set<nat> {
    set f | f in owner && (owner[f].Dir? || (owner[f].Table? && owner[f].d >= i))
  }

  /** With all user pages gone, only the directory and the tables are left. */
  lemma OnlyTables(mem: Memory, m1: Memory, dir: nat, owner: Owner, owner': Owner, held: set<nat>)
    requires Inv(mem, dir, owner) && Inv(m1, dir, owner') && Cut(mem, m1, dir, owner, owner', 0, USER_PAGES, held)
    ensures owner'.Keys == Remaining(owner', 0) && PagesOf(owner') == {}
  {
    forall f | f in owner' ensures !owner'[f].Page? {
      assert f in owner ==> RoleOk(mem, dir, f, owner[f]);
    }
  }

  lemma RemainingNext(mem: Memory, dir: nat, owner: Owner, i: nat)
    requires Inv(mem, dir, owner) && i < NPT
    ensures var pde := mem[dir][i];
            if IsPresent(pde) then
              && FrameOf(pde) in Remaining(owner, i) && FrameOf(pde) != dir
              && Remaining(owner, i + 1) == Remaining(owner, i) - {FrameOf(pde)}
            else Remaining(owner, i + 1) == Remaining(owner, i)
  {
    assert TableOwned(mem, dir, owner, i);
    forall f | f in owner && owner[f] == Table(i) ensures IsPresent(mem[dir][i]) && f == FrameOf(mem[dir][i]) {
      assert RoleOk(mem, dir, f, owner[f]);
    }
  }

  lemma RemainingLast(mem: Memory, dir: nat, owner: Owner)
    requires Inv(mem, dir, owner)
    ensures Remaining(owner, NPT) == {dir}
  {
    forall f | f in owner ensures owner[f].Dir? ==> f == dir {
      assert RoleOk(mem, dir, f, owner[f]);
    }
    forall f | f in owner && owner[f].Table? ensures owner[f].d < NPT {
      assert RoleOk(mem, dir, f, owner[f]);
    }
  }

  // ----- setupkvm

  /** A row of kmap, in pages. */
  datatype Region = Region(vpn: nat, n: nat, pa: nat, perm: nat) {
    predicate Ok() {
      USER_PAGES <= vpn && n > 0 && vpn + n <= ALL_PAGES && pa + n <= ALL_PAGES && perm < PGSIZE
    }

    predicate Has(v: nat) {
      vpn <= v < vpn + n
    }
  }

  ghost predicate KmapOk(kmap: seq<Region>) {
    && (forall j :: 0 <= j < |kmap| ==> kmap[j].Ok())
    && (forall i, j, v: nat :: 0 <= i < j < |kmap| && kmap[i].Has(v) ==> !kmap[j].Has(v))
  }

  /** The kernel half has the first k regions and nothing else. */
  ghost predicate Kmapped(mem: Memory, dir: nat, kmap: seq<Region>, k: nat)
    requires k <= |kmap| && forall j :: 0 <= j < |kmap| ==> kmap[j].Ok()
  {
    && dir < |mem|
    && (forall j, v: nat :: 0 <= j < k && kmap[j].Ok() && kmap[j].Has(v) ==>
          PteOf(mem, dir, v) == Entry(kmap[j].pa + (v - kmap[j].vpn), kmap[j].perm))
    && (forall v :: USER_PAGES <= v < ALL_PAGES && (forall j :: 0 <= j < k ==> !kmap[j].Has(v)) ==>
          PteOf(mem, dir, v) == 0)
  }

  ghost predicate NoUserPages(mem: Memory, dir: nat, lo: nat) {
    dir < |mem| && forall v :: lo <= v < USER_PAGES ==> !IsPresent(PteOf(mem, dir, v))
  }

  /** A zeroed directory. */
  lemma EmptyDirectory(mem: Memory, free: seq<nat>, held: set<nat>, mem0: Memory, total: set<nat>, first: nat,
                       last: nat, dir: nat, kmap: seq<Region>)
    requires Books(mem, free, {}, held, mem0, total, first, last) && dir in held && KmapOk(kmap)
    ensures 0 < dir < |mem| <= ALL_PAGES
    ensures var m1 := mem[dir := Zeroed()]; var owner: Owner := map[dir := Dir];
            && Inv(m1, dir, owner) && Books(m1, free, owner.Keys, held - {dir}, mem0, total, first, last)
            && Kmapped(m1, dir, kmap, 0) && NoUserPages(m1, dir, 0) && SameData(mem, m1, held - {dir})
  {
    HeldInMemory(mem, free, {}, held, mem0, total, first, last, dir);
    Write(mem, free, {}, held, mem0, total, first, last, dir, Zeroed());
    Gain(mem[dir := Zeroed()], free, {}, held, mem0, total, first, last, dir);
    assert map[dir := Dir].Keys == {} + {dir};
  }

  lemma KmappedNext(mem: Memory, m1: Memory, dir: nat, kmap: seq<Region>, k: nat)
    requires k < |kmap| && KmapOk(kmap) && Kmapped(mem, dir, kmap, k) && NoUserPages(mem, dir, 0)
    requires MappedRange(mem, m1, dir, kmap[k].vpn, kmap[k].n, kmap[k].pa, kmap[k].perm)
    ensures Kmapped(m1, dir, kmap, k + 1) && NoUserPages(m1, dir, 0)
  {
    hide PteOf, Entry;
    forall v | USER_PAGES <= v < ALL_PAGES && (forall j :: 0 <= j < k + 1 ==> !kmap[j].Has(v))
      ensures PteOf(m1, dir, v) == 0
    {
      assert !kmap[k].Has(v);
    }
  }

  lemma KmapFree(mem: Memory, dir: nat, kmap: seq<Region>, k: nat, v: nat)
    requires k < |kmap| && KmapOk(kmap) && Kmapped(mem, dir, kmap, k) && kmap[k].Has(v)
    ensures v < ALL_PAGES && PteOf(mem, dir, v) == 0
  {
    hide PteOf, Entry;
  }

  // ----- copyuvm

  /** Page v of directory d is a copy of page v of `parent` in memory memA. */
  ghost predicate CopyOf(memA: Memory, mem: Memory, parent: nat, d: nat, v: nat)
    requires parent < |memA| && d < |mem| && v < ALL_PAGES
  {
    var p, c := PteOf(memA, parent, v), PteOf(mem, d, v);
    && IsPresent(c) && FlagsOf(c) == FlagsOf(p) && FrameOf(c) < |mem| && FrameOf(p) < |memA|
    && mem[FrameOf(c)] == memA[FrameOf(p)]
  }

  ghost predicate Copied(memA: Memory, mem: Memory, parent: nat, d: nat, i: nat) {
    parent < |memA| && d < |mem| && i <= USER_PAGES && forall v :: 0 <= v < i ==> CopyOf(memA, mem, parent, d, v)
  }

  /** Frames outside the account are as they were, so the parent is. */
  lemma ParentKept(memA: Memory, mem: Memory, free: seq<nat>, own: set<nat>, held: set<nat>, mem0: Memory,
                   total: set<nat>, first: nat, last: nat,
                   freeA: seq<nat>, ownA: set<nat>, heldA: set<nat>, parent: nat, powner: Owner, v: nat)
    requires Books(memA, freeA, ownA, heldA, mem0, total, first, last)
    requires Books(mem, free, own, held, mem0, total, first, last)
    requires Inv(memA, parent, powner) && powner.Keys !! total && v < USER_PAGES
    ensures parent < |mem| == |memA| && PteOf(mem, parent, v) == PteOf(memA, parent, v) && Inv(mem, parent, powner)
    ensures var p := PteOf(memA, parent, v); IsPresent(p) ==> FrameOf(p) < |mem| && FrameOf(p) !in total
    ensures var p := PteOf(memA, parent, v); IsPresent(p) ==> mem[FrameOf(p)] == memA[FrameOf(p)]
  {
    assert SameTables(memA, mem, powner) by {
      forall f | f in powner && f < |memA| ensures mem[f] == memA[f] {
        assert f !in total;
      }
    }
    SameSpace(memA, mem, parent, powner);
    SamePte(memA, mem, parent, powner, v);
    assert PageOwned(memA, parent, powner, v);
    var p := PteOf(memA, parent, v);
    assert IsPresent(p) ==> RoleOk(memA, parent, FrameOf(p), powner[FrameOf(p)]);
  }

  /** m2 has the copy in frame f, m3 has page i of d mapped to it. */
  lemma CopiedOne(memA: Memory, m1: Memory, m2: Memory, m3: Memory, parent: nat, d: nat, owner: Owner, i: nat, f: nat,
                  held: set<nat>)
    requires Inv(m1, d, owner) && Copied(memA, m1, parent, d, i) && i < USER_PAGES && f < |m1| == |memA| <= ALL_PAGES
    requires f !in owner && f in held
    requires IsPresent(PteOf(memA, parent, i)) && FrameOf(PteOf(memA, parent, i)) < |memA|
    requires m2 == m1[f := memA[FrameOf(PteOf(memA, parent, i))]] && SameMap(m1, m2, d)
    requires MappedRange(m2, m3, d, i, 1, f, FlagsOf(PteOf(memA, parent, i))) && SameData(m2, m3, PagesOf(owner) + held)
    ensures Copied(memA, m3, parent, d, i + 1)
  {
    var p := PteOf(memA, parent, i);
    EntryParts(f, FlagsOf(p));
    OddFlags(p);
    assert CopyOf(memA, m3, parent, d, i);
    forall v | 0 <= v < i ensures CopyOf(memA, m3, parent, d, v) {
      assert CopyOf(memA, m1, parent, d, v) && PageOwned(m1, d, owner, v);
      assert PteOf(m3, d, v) == PteOf(m2, d, v) == PteOf(m1, d, v);
    }
  }

  lemma OddFlags(w: Word)
    ensures IsPresent(w) ==> FlagsOf(w) % 2 == 1
  {
    assert w == PGSIZE * (w / PGSIZE) + w % PGSIZE == 2 * (2048 * (w / PGSIZE)) + w % PGSIZE;
  }

  /** Mapping a user page leaves the kernel half and the later user pages alone. */
  lemma HalvesKept(mem: Memory, m1: Memory, m2: Memory, dir: nat, kmap: seq<Region>, i: nat, f: nat, perm: nat)
    requires KmapOk(kmap) && Kmapped(mem, dir, kmap, |kmap|) && NoUserPages(mem, dir, i) && i < USER_PAGES
    requires f < ALL_PAGES && perm < PGSIZE
    requires SameMap(mem, m1, dir) && MappedRange(m1, m2, dir, i, 1, f, perm)
    ensures Kmapped(m2, dir, kmap, |kmap|) && NoUserPages(m2, dir, i + 1)
  {
    hide PteOf, Entry;
    assert forall v :: 0 <= v < ALL_PAGES && v != i ==> PteOf(m2, dir, v) == PteOf(m1, dir, v) == PteOf(mem, dir, v);
  }

  lemma InvDirs(mem: Memory, dir: nat, owner: Owner)
    requires Inv(mem, dir, owner)
    ensures dir < |mem|
  {
  }

  lemma CopiedNone(memA: Memory, mem: Memory, parent: nat, d: nat)
    requires parent < |memA| && d < |mem|
    ensures Copied(memA, mem, parent, d, 0)
  {
  }

  lemma PresentPte(mem: Memory, dir: nat, owner: Owner, vpn: nat)
    requires Inv(mem, dir, owner) && vpn < ALL_PAGES && IsPresent(PteOf(mem, dir, vpn))
    ensures dir < |mem| && HasTable(mem, dir, vpn) && PteOf(mem, dir, vpn) == mem[TableOf(mem, dir, vpn)][vpn % NPT]
  {
  }

  lemma NextAbsent(mem: Memory, m1: Memory, dir: nat, i: nat)
    requires NoUserPages(mem, dir, i) && SameMap(mem, m1, dir) && i < USER_PAGES
    ensures dir < |m1| && !IsPresent(PteOf(m1, dir, i))
  {
    hide PteOf;
    assert PteOf(m1, dir, i) == PteOf(mem, dir, i);
  }

  lemma OwnInTotal(mem: Memory, free: seq<nat>, own: set<nat>, held: set<nat>, mem0: Memory, total: set<nat>,
                   first: nat, last: nat)
    requires Books(mem, free, own, held, mem0, total, first, last)
    ensures own <= total
  {
  }

  lemma PushSet(free: seq<nat>, f: nat)
    ensures FreeSet([f] + free) == FreeSet(free) + {f}
  {
  }

  /** When the account holds before and after and nothing is owned any more, all owned frames are free. */
  lemma AllReturned(m0: Memory, free0: seq<nat>, own: set<nat>, m1: Memory, free1: seq<nat>, held: set<nat>,
                    mem0: Memory, total: set<nat>, first: nat, last: nat)
    requires Books(m0, free0, own, held, mem0, total, first, last)
    requires Books(m1, free1, {}, held, mem0, total, first, last)
    ensures FreeSet(free1) == FreeSet(free0) + own && FreeSet(free0) !! own
  {
    assert FreeSet(free1) == total - held == FreeSet(free0) + own;
  }
}
