/** kalloc, kfree and the address space operations of vm.c on physical memory. */
module Vm {
  import opened Params
  import opened PageTables
  import opened VmSteps
  import opened PageAccess
  import opened FrameNeeds
  import opened Wrappers

  /** The frames of s that lie wholly between byte addresses start and end. */
  ghost function Frames(s: set<nat>, start: nat, end: nat): set<nat> {
    set f | f in s && PgUp(start) <= f && (f + 1) * PGSIZE <= end
  }

  ghost function FramesBelow(s: set<nat>, start: nat, p: nat): set<nat> {
    set f | f in s && PgUp(start) <= f < p
  }

  class Kernel {
    const first: nat                 // the frames kalloc deals in
    const last: nat
    var mem: Memory
    var freelist: seq<nat>
    ghost var held: set<nat>         // allocated frames that nothing refers to yet
    ghost var mem0: Memory           // memory, and the frames to account for, at some earlier moment
    ghost var total: set<nat>

    /** Before kinit1: the frames that freerange will be given are in nobody's hands. */
    constructor (m: Memory, f: nat, l: nat, ghost frames: set<nat>)
      requires 0 < f <= l <= |m| <= ALL_PAGES && forall x :: x in frames ==> f <= x < l
      ensures Accounts({}) && freelist == [] && held == frames && first == f && last == l
    {
      mem, first, last, freelist := m, f, l, [];
      held, mem0, total := frames, m, frames;
    }

    /** Put the whole frames between byte addresses start and end on the free list. */
    method Freerange(start: nat, end: nat)
      requires Accounts({}) && forall f :: PgUp(start) <= f && (f + 1) * PGSIZE <= end ==> f in held
      modifies this`mem, this`freelist, this`held
      ensures Accounts({}) && FreeSet(freelist) == FreeSet(old(freelist)) + Frames(old(held), start, end)
      ensures held == old(held) - Frames(old(held), start, end)
    {
      hide Books;
      var p := PgUp(start);
      ghost var h := held;
      while (p + 1) * PGSIZE <= end
        invariant PgUp(start) <= p && Accounts({})
        invariant forall f :: f in h && PgUp(start) <= f < p ==> (f + 1) * PGSIZE <= end
        invariant held == h - FramesBelow(h, start, p)
        invariant FreeSet(freelist) == FreeSet(old(freelist)) + FramesBelow(h, start, p)
        decreases end - p
      {
        assert p in h;
        assert FramesBelow(h, start, p + 1) == FramesBelow(h, start, p) + {p};
        PushSet(freelist, p);
        Kfree(p, {});
        p := p + 1;
      }
      assert FramesBelow(h, start, p) == Frames(h, start, end);
    }

    ghost predicate Accounts(own: set<nat>)
      reads this
    {
      Books(mem, freelist, own, held, mem0, total, first, last)
    }

    /** The address space of `dir` owns the frames in owner. */
    ghost predicate Holds(dir: nat, owner: Owner)
      reads this
    {
      Inv(mem, dir, owner) && Accounts(owner.Keys)
    }

    method Kalloc(ghost own: set<nat>) returns (r: Option<nat>)
      requires Accounts(own)
      modifies this`freelist, this`held
      ensures Accounts(own)
      ensures r.None? ==> freelist == old(freelist) == [] && held == old(held)
      ensures r.Some? ==> held == old(held) + {r.value} && r.value !in own && r.value !in old(held) && r.value < |mem|
      ensures r.Some? ==> |old(freelist)| > 0 && r.value == old(freelist)[0] && freelist == old(freelist)[1..]
    {
      hide Books;
      if freelist == [] {
        return None;
      }
      Pop(mem, freelist, own, held, mem0, total, first, last);
      r := Some(freelist[0]);
      freelist, held := freelist[1..], held + {freelist[0]};
    }

    /** Put frame f back; kfree's range test never fails here. */
    method Kfree(f: nat, ghost own: set<nat>)
      requires Accounts(own) && f in held
      modifies this`mem, this`freelist, this`held
      ensures Accounts(own) && held == old(held) - {f} && freelist == [f] + old(freelist) && f < |mem| == |old(mem)|
      ensures mem == old(mem)[f := Junk()]
    {
      hide Books;
      Push(mem, freelist, own, held, mem0, total, first, last, f);
      HeldInMemory(mem, freelist, own, held, mem0, total, first, last, f);
      assert first <= f < last;
      mem := mem[f := Junk()];
      freelist, held := [f] + freelist, held - {f};
    }

    /** The page table that has the entry for page vpn, made when there is none and alloc is set. */
    method Walkpgdir(dir: nat, vpn: nat, alloc: bool, ghost owner: Owner) returns (r: Option<nat>, ghost owner': Owner)
      requires Holds(dir, owner) && vpn < ALL_PAGES
      modifies this`mem, this`freelist, this`held
      ensures Holds(dir, owner') && held == old(held) && SameMap(old(mem), mem, dir)
      ensures r.Some? ==> HasTable(mem, dir, vpn) && r.value == TableOf(mem, dir, vpn) && Open(mem[dir][vpn / NPT])
      ensures r.None? ==> !HasTable(mem, dir, vpn) && (alloc ==> freelist == [])
      ensures if owner' == owner then mem == old(mem) && freelist == old(freelist)
              else alloc && r.Some? && r.value !in owner && owner' == owner[r.value := Table(vpn / NPT)]
      ensures SameData(old(mem), mem, PagesOf(owner) + held)
      ensures r.Some? ==> Spent(old(mem), old(freelist), mem, freelist, dir, {vpn / NPT}, 0)
    {
      hide Inv, Books, Spent;
      owner' := owner;
      HoldsBasics(mem, dir, owner, freelist, held, mem0, total, first, last);
      PresentIsTable(mem, dir, owner, vpn);
      if IsPresent(mem[dir][vpn / NPT]) {
        SpentNoTable(mem, freelist, dir, vpn / NPT);
        return Some(FrameOf(mem[dir][vpn / NPT])), owner;
      }
      if !alloc {
        return None, owner;
      }
      var t := Kalloc(owner.Keys);
      if t.None? {
        return None, owner;
      }
      NewTable(mem, freelist, held, mem0, total, first, last, dir, owner, vpn / NPT, t.value);
      SpentTable(mem, old(freelist), dir, vpn / NPT, t.value);
      EntryParts(t.value, 7);
      mem := mem[t.value := Zeroed()];
      mem := mem[dir := mem[dir][vpn / NPT := Entry(t.value, 7)]];
      held := held - {t.value};
      return t, owner[t.value := Table(vpn / NPT)];
    }

    /** Map n pages from vpn on to frames pa, pa+1, ...; false when memory for a page table runs out,
        with `done` pages mapped. "remap" is the panic that the third requires keeps away. */
    method Mappages(dir: nat, vpn: nat, n: nat, pa: nat, perm: nat, ghost owner: Owner)
      returns (ok: bool, done: nat, ghost owner': Owner)
      requires Holds(dir, owner) && n > 0 && vpn + n <= ALL_PAGES && pa + n <= ALL_PAGES && perm < PGSIZE
      requires vpn < USER_PAGES ==> n == 1 && pa in held
      requires forall v :: vpn <= v < vpn + n ==> dir < |mem| && !IsPresent(PteOf(mem, dir, v))
      modifies this`mem, this`freelist, this`held
      ensures Holds(dir, owner') && Extends(owner, owner', vpn, vpn + n)
      ensures SameData(old(mem), mem, PagesOf(owner) + old(held))
      ensures done <= n && MappedRange(old(mem), mem, dir, vpn, done, pa, perm)
      ensures AccessGiven(old(mem), mem, dir, vpn, vpn + done, perm)
      ensures if ok then done == n else done < n && freelist == []
      ensures held == if vpn < USER_PAGES && ok then old(held) - {pa} else old(held)
      ensures Spent(old(mem), old(freelist), mem, freelist, dir, WantedTables(vpn, vpn + done), 0)
      ensures !ok ==> (vpn + done) / NPT !in Tables(mem, dir)
    {
      hide Inv, Books, PteOf, MappedRange, Extends, Spent, WantedTables, Tables, SameData, PagesOf, AccessGiven;
      owner', done := owner, 0;
      ghost var m0, f0, h := mem, freelist, held;
      HoldsBasics(mem, dir, owner, freelist, held, mem0, total, first, last);
      MappedNone(mem, dir, vpn, pa, perm);
      ExtendsSelf(owner, vpn, vpn + n);
      SameDataSelf(mem, PagesOf(owner) + held);
      WantedNone(vpn);
      SpentNothing(mem, freelist, mem, dir);
      while true
        invariant done < n && Mapping(dir, vpn, n, pa, perm, done, owner, owner', m0, f0, h)
        decreases n - done
      {
        ok, owner' := MapNext(dir, vpn, n, pa, perm, done, owner, owner', m0, f0, h);
        done := if ok then done + 1 else done;
        if !ok || done == n {
          MappedAccess(m0, owner, mem, owner', dir, vpn, done, pa, perm);
          return;
        }
      }
    }

    /** The invariant of mappages' loop. */
    ghost predicate Mapping(dir: nat, vpn: nat, n: nat, pa: nat, perm: nat, done: nat, owner: Owner, owner1: Owner,
                            m0: Memory, f0: seq<nat>, h: set<nat>)
      requires perm < PGSIZE && vpn + n <= ALL_PAGES && pa + n <= ALL_PAGES && done <= n
      reads this
    {
      && Holds(dir, owner1) && Extends(owner, owner1, vpn, vpn + n) && SameData(m0, mem, PagesOf(owner) + h)
      && MappedRange(m0, mem, dir, vpn, done, pa, perm)
      && held == (if vpn < USER_PAGES && done > 0 then h - {pa} else h)
      && Spent(m0, f0, mem, freelist, dir, WantedTables(vpn, vpn + done), 0)
    }

    /** The mapping of page vpn + done. */
    method MapNext(dir: nat, vpn: nat, n: nat, pa: nat, perm: nat, done: nat, ghost owner: Owner, ghost owner1: Owner,
                   ghost m0: Memory, ghost f0: seq<nat>, ghost h: set<nat>)
      returns (ok: bool, ghost owner': Owner)
      requires done < n && vpn + n <= ALL_PAGES && pa + n <= ALL_PAGES && perm < PGSIZE
      requires vpn < USER_PAGES ==> n == 1 && pa in h
      requires forall v :: vpn <= v < vpn + n ==> dir < |m0| && !IsPresent(PteOf(m0, dir, v))
      requires Mapping(dir, vpn, n, pa, perm, done, owner, owner1, m0, f0, h)
      modifies this`mem, this`freelist, this`held
      ensures Mapping(dir, vpn, n, pa, perm, if ok then done + 1 else done, owner, owner', m0, f0, h)
      ensures dir < |mem|
      ensures !ok ==> freelist == [] && (vpn + done) / NPT !in Tables(mem, dir)
    {
      hide Inv, Books, PteOf, MappedRange, Extends, Spent, WantedTables, Tables, SameData, PagesOf;
      ghost var m1, f1 := mem, freelist;
      HoldsBasics(mem, dir, owner1, freelist, held, mem0, total, first, last);
      StillAbsent(m0, mem, dir, vpn, done, n, pa, perm);
      ok, owner' := MapPage(dir, vpn + done, pa + done, perm, owner1);
      HoldsBasics(mem, dir, owner', freelist, held, mem0, total, first, last);
      ExtendsTwice(owner, owner1, owner', vpn, vpn + n, vpn + done, vpn + done + 1);
      SameDataTwice(m0, m1, mem, PagesOf(owner) + h, PagesOf(owner1) + h);
      if ok {
        MappedStep(m0, m1, mem, dir, vpn, done, pa, perm);
        WantedNext(vpn, vpn + done);
        SpentTwice(m0, f0, m1, f1, mem, freelist, dir, WantedTables(vpn, vpn + done), 0, {(vpn + done) / NPT}, 0);
      }
    }

    /** walkpgdir and the entry of one page. */
    method MapPage(dir: nat, vpn: nat, f: nat, perm: nat, ghost owner: Owner) returns (ok: bool, ghost owner': Owner)
      requires Holds(dir, owner) && vpn < ALL_PAGES && f < ALL_PAGES && perm < PGSIZE
      requires vpn < USER_PAGES ==> f in held
      requires dir < |mem| && !IsPresent(PteOf(mem, dir, vpn))
      modifies this`mem, this`freelist, this`held
      ensures Holds(dir, owner') && Extends(owner, owner', vpn, vpn + 1)
      ensures SameData(old(mem), mem, PagesOf(owner) + old(held))
      ensures if ok then MappedRange(old(mem), mem, dir, vpn, 1, f, perm)
              else SameMap(old(mem), mem, dir) && freelist == []
      ensures held == if ok && vpn < USER_PAGES then old(held) - {f} else old(held)
      ensures ok ==> Spent(old(mem), old(freelist), mem, freelist, dir, {vpn / NPT}, 0)
      ensures !ok ==> mem == old(mem) && freelist == old(freelist) && vpn / NPT !in Tables(mem, dir)
    {
      hide Inv, Books, PteOf, Extends, Entry, Spent;
      var t;
      t, owner' := Walkpgdir(dir, vpn, true, owner);
      if t.None? {
        ExtendsSelf(owner, vpn, vpn + 1);
        PresentIsTable(mem, dir, owner, vpn);
        return false, owner';
      }
      ghost var m1, o1 := mem, owner';
      ExtendsByTable(owner, owner', t.value, vpn / NPT, vpn, vpn + 1);
      HoldsBasics(mem, dir, owner', freelist, held, mem0, total, first, last);
      MapEntry(mem, freelist, held, mem0, total, first, last, dir, owner', vpn, f, perm);
      mem := mem[t.value := mem[t.value][vpn % NPT := Entry(f, perm)]];
      SpentNothing(m1, freelist, mem, dir);
      SpentTwice(old(mem), old(freelist), m1, freelist, mem, freelist, dir, {vpn / NPT}, 0, {}, 0);
      assert {vpn / NPT} + {} == {vpn / NPT};
      if vpn < USER_PAGES {
        owner', held := owner'[f := Page(vpn)], held - {f};
      }
      ExtendsTwice(owner, o1, owner', vpn, vpn + 1, vpn, vpn + 1);
      return true, owner';
    }

    /** Unmap and free the present pages from newsz up to oldsz. */
    method Deallocuvm(dir: nat, oldsz: nat, newsz: nat, ghost owner: Owner) returns (r: nat, ghost owner': Owner)
      requires Holds(dir, owner) && oldsz <= KERNBASE
      modifies this`mem, this`freelist, this`held
      ensures Holds(dir, owner') && held == old(held)
      ensures newsz >= oldsz ==> r == oldsz && mem == old(mem) && freelist == old(freelist) && owner' == owner
      ensures newsz < oldsz ==> r == newsz && Cut(old(mem), mem, dir, owner, owner', PgUp(newsz), PgUp(oldsz), held)
    {
      hide Inv, Books, PteOf, Cut, Unmapped, Without;
      HoldsBasics(mem, dir, owner, freelist, held, mem0, total, first, last);
      owner' := owner;
      if newsz >= oldsz {
        return oldsz, owner;
      }
      var i, lo, hi := PgUp(newsz), PgUp(newsz), PgUp(oldsz);
      CutNone(mem, dir, owner, lo, held);
      while i * PGSIZE < oldsz
        invariant lo <= i && Holds(dir, owner') && held == old(held)
        invariant Cut(old(mem), mem, dir, owner, owner', lo, if i <= hi then i else hi, held)
        decreases hi - i
      {
        i, owner' := CutNext(dir, lo, i, hi, old(mem), owner, owner');
      }
      return newsz, owner';
    }

    /** One round of deallocuvm's loop, with its jump over a missing page table. */
    method CutNext(dir: nat, lo: nat, i: nat, hi: nat, ghost memA: Memory, ghost owner0: Owner, ghost owner: Owner)
      returns (i': nat, ghost owner': Owner)
      requires Holds(dir, owner) && lo <= i < hi <= USER_PAGES && Cut(memA, mem, dir, owner0, owner, lo, i, held)
      modifies this`mem, this`freelist, this`held
      ensures Holds(dir, owner') && held == old(held) && i < i'
      ensures Cut(memA, mem, dir, owner0, owner', lo, if i' <= hi then i' else hi, held)
    {
      hide Inv, Books, PteOf, Cut;
      HoldsBasics(mem, dir, owner, freelist, held, mem0, total, first, last);
      var t;
      t, owner' := Walkpgdir(dir, i, false, owner);
      if t.None? {
        i' := (i / NPT + 1) * NPT - 1;
        SkipInTable(i, hi);
        CutSkip(memA, mem, dir, owner0, owner, lo, i, SkipTo(i, hi), held);
      } else {
        i' := i;
        PteIn(mem, dir, i);
        var pte := mem[t.value][i % NPT];
        if IsPresent(pte) {
          owner' := Unmap(dir, i, t.value, FrameOf(pte), memA, owner0, owner, lo);
        } else {
          CutAbsent(memA, mem, dir, owner0, owner, lo, i, held);
        }
      }
      i' := i' + 1;
    }

    /** kfree the frame of page i and clear its entry. */
    method Unmap(dir: nat, i: nat, t: nat, f: nat, ghost memA: Memory, ghost owner0: Owner, ghost owner: Owner,
                 ghost lo: nat)
      returns (ghost owner': Owner)
      requires Holds(dir, owner) && lo <= i < USER_PAGES && dir < |mem| && HasTable(mem, dir, i)
      requires t == TableOf(mem, dir, i)
      requires IsPresent(PteOf(mem, dir, i)) && f == FrameOf(PteOf(mem, dir, i))
      requires Cut(memA, mem, dir, owner0, owner, lo, i, held)
      modifies this`mem, this`freelist, this`held
      ensures Holds(dir, owner') && held == old(held) && Cut(memA, mem, dir, owner0, owner', lo, i + 1, held)
    {
      hide Inv, Books, PteOf, Cut, Unmapped;
      ghost var m1, h := mem, held;
      owner' := owner - {f};
      UnmapEntry(mem, dir, owner, i);
      FramesWithout(mem, freelist, owner, held, mem0, total, first, last, f);
      OwnedNotHeld(mem, freelist, owner.Keys, held, mem0, total, first, last, f);
      held := held + {f};
      Kfree(f, owner'.Keys);
      Write(mem, freelist, owner'.Keys, held, mem0, total, first, last, t, mem[t][i % NPT := 0]);
      mem := mem[t := mem[t][i % NPT := 0]];
      assert held == h;
      CutOne(memA, m1, mem, dir, owner0, owner, lo, i, h);
    }

    /** Grow the user part from oldsz to newsz with zeroed pages. When memory runs out the pages are
        taken back and r is 0; only page tables may then have been added. */
    method Allocuvm(dir: nat, oldsz: nat, newsz: nat, ghost owner: Owner)
      returns (r: nat, ghost ok: bool, ghost owner': Owner)
      requires Holds(dir, owner) && oldsz <= KERNBASE
      requires newsz < KERNBASE ==> Absent(mem, dir, PgUp(oldsz), PgUp(newsz))
      modifies this`mem, this`freelist, this`held
      ensures Holds(dir, owner') && held == old(held) && SameData(old(mem), mem, PagesOf(owner) + held)
      ensures newsz >= KERNBASE ==> r == 0 && !ok && mem == old(mem) && owner' == owner
      ensures newsz < oldsz && newsz < KERNBASE ==> r == oldsz && ok && mem == old(mem) && owner' == owner
      ensures oldsz <= newsz < KERNBASE && ok ==>
                && r == newsz && NewPages(old(mem), mem, dir, PgUp(oldsz), PgUp(newsz))
                && AccessGiven(old(mem), mem, dir, PgUp(oldsz), PgUp(newsz), 6)
                && Extends(owner, owner', PgUp(oldsz), PgUp(newsz))
      ensures oldsz <= newsz < KERNBASE && !ok ==> r == 0 && SamePages(old(mem), mem, dir)
      ensures oldsz <= newsz < KERNBASE && !ok ==> Extends(owner, owner', 0, 0)
      ensures oldsz <= newsz < KERNBASE ==>
                && PgUp(oldsz) <= PgUp(newsz) && dir < |old(mem)|
                && (ok <==> PageNeeds(old(mem), dir, PgUp(oldsz), PgUp(newsz)) <= |old(freelist)|)
    {
      hide Inv, Books, PteOf, NewPages, Extends, Absent, Spent, PageNeeds, WantedTables, AccessGiven;
      owner' := owner;
      HoldsBasics(mem, dir, owner, freelist, held, mem0, total, first, last);
      if newsz >= KERNBASE {
        return 0, false, owner;
      }
      if newsz < oldsz {
        return oldsz, true, owner;
      }
      var i, lo, hi := PgUp(oldsz), PgUp(oldsz), PgUp(newsz);
      NewNone(mem, dir, lo);
      ExtendsSelf(owner, lo, hi);
      WantedNone(lo);
      SpentNothing(mem, freelist, mem, dir);
      while i * PGSIZE < newsz
        invariant lo <= i <= hi && Growing(dir, lo, i, hi, old(mem), old(freelist), owner, owner', old(held))
        decreases hi - i
      {
        var grown;
        grown, owner' := GrowPage(dir, lo, i, hi, oldsz, newsz, old(mem), old(freelist), owner, owner', old(held));
        if !grown {
          return 0, false, owner';
        }
        i := i + 1;
      }
      EnoughFrames(old(mem), old(freelist), mem, freelist, dir, lo, hi);
      NewAccess(old(mem), owner, mem, owner', dir, lo, hi);
      return newsz, true, owner';
    }

    /** The invariant of allocuvm's loop. */
    ghost predicate Growing(dir: nat, lo: nat, i: nat, hi: nat, memA: Memory, freeA: seq<nat>, owner0: Owner,
                            owner: Owner, h: set<nat>)
      reads this
    {
      && Holds(dir, owner) && held == h && NewPages(memA, mem, dir, lo, i) && Extends(owner0, owner, lo, hi)
      && SameData(memA, mem, PagesOf(owner0) + h)
      && lo <= i && Spent(memA, freeA, mem, freelist, dir, WantedTables(lo, i), i - lo)
    }

    /** One round of allocuvm's loop, including its two ways to fail. */
    method GrowPage(dir: nat, lo: nat, i: nat, hi: nat, oldsz: nat, newsz: nat, ghost memA: Memory,
                    ghost freeA: seq<nat>, ghost owner0: Owner, ghost owner: Owner, ghost h: set<nat>)
      returns (ok: bool, ghost owner': Owner)
      requires Growing(dir, lo, i, hi, memA, freeA, owner0, owner, h) && Inv(memA, dir, owner0)
      requires Absent(memA, dir, lo, hi)
      requires oldsz <= newsz < KERNBASE && lo == PgUp(oldsz) <= i < hi == PgUp(newsz)
      modifies this`mem, this`freelist, this`held
      ensures Holds(dir, owner') && held == h && SameData(memA, mem, PagesOf(owner0) + h)
      ensures if ok then Growing(dir, lo, i + 1, hi, memA, freeA, owner0, owner', h)
              else SamePages(memA, mem, dir) && Extends(owner0, owner', 0, 0)
      ensures !ok ==> dir < |memA| && PageNeeds(memA, dir, lo, hi) > |freeA|
    {
      hide Inv, Books, PteOf, NewPages, Extends, Absent, SamePages, SameMap, Spent, WantedTables, Tables, PageNeeds;
      owner' := owner;
      ghost var m1, f1 := mem, freelist;
      SameMapSelf(mem, dir, owner);
      var f := Kalloc(owner.Keys);
      if f.None? {
        TooFewFrames(memA, freeA, mem, dir, lo, i, hi, 0);
        owner' := Rollback(dir, lo, i, hi, oldsz, newsz, memA, m1, owner0, owner, h);
        return false, owner';
      }
      HeldWrite(mem, freelist, held, mem0, total, first, last, dir, owner, f.value, Zeroed());
      mem := mem[f.value := Zeroed()];
      ghost var m2 := mem;
      PageTaken(memA, freeA, m1, f1, m2, dir, owner, lo, i, f.value);
      var done;
      NotYet(memA, m1, m2, dir, lo, i, hi);
      ok, done, owner' := Mappages(dir, i, 1, f.value, 6, owner);
      ExtendsTwice(owner0, owner, owner', lo, hi, i, i + 1);
      PageMapped(memA, freeA, m2, f1[1..], mem, freelist, dir, lo, i, done);
      if !ok {
        TooFewFrames(memA, freeA, mem, dir, lo, i, hi, 1);
        MappedNothing(m2, mem, dir, i, f.value, 6);
        SameMapThen(m1, m2, mem, dir);
        owner' := Rollback(dir, lo, i, hi, oldsz, newsz, memA, m1, owner0, owner', h);
        HeldWrite(mem, freelist, held, mem0, total, first, last, dir, owner', f.value, Junk());
        SameMapThen(memA, mem, mem[f.value := Junk()], dir);
        Kfree(f.value, owner'.Keys);
        return false, owner';
      }
      NewOne(memA, m1, m2, mem, dir, owner, lo, i, f.value, h + {f.value});
    }

    /** kalloc of a page and a write to it. */
    lemma PageTaken(memA: Memory, freeA: seq<nat>, m1: Memory, f1: seq<nat>, m2: Memory, dir: nat, owner: Owner,
                    lo: nat, i: nat, f: nat)
      requires Inv(m1, dir, owner) && f !in owner && f < |m1| == |m2| && m2 == m1[f := m2[f]] && f1 != [] && lo <= i
      requires Spent(memA, freeA, m1, f1, dir, WantedTables(lo, i), i - lo)
      ensures Spent(memA, freeA, m2, f1[1..], dir, WantedTables(lo, i), i - lo + 1)
    {
      hide Spent, WantedTables;
      SpentPage(m1, f1, dir);
      SpentNothing(m1, f1[1..], m2, dir);
      SpentTwice(memA, freeA, m1, f1, m1, f1[1..], dir, WantedTables(lo, i), i - lo, {}, 1);
      SpentTwice(memA, freeA, m1, f1[1..], m2, f1[1..], dir, WantedTables(lo, i) + {}, i - lo + 1, {}, 0);
      assert WantedTables(lo, i) + {} + {} == WantedTables(lo, i);
    }

    /** Then mappages of that page, done or not. */
    lemma PageMapped(memA: Memory, freeA: seq<nat>, m2: Memory, f2: seq<nat>, m3: Memory, f3: seq<nat>, dir: nat,
                     lo: nat, i: nat, done: nat)
      requires lo <= i < ALL_PAGES && done <= 1 && Spent(memA, freeA, m2, f2, dir, WantedTables(lo, i), i - lo + 1)
      requires Spent(m2, f2, m3, f3, dir, WantedTables(i, i + done), 0)
      ensures Spent(memA, freeA, m3, f3, dir, WantedTables(lo, i + done), i - lo + 1)
    {
      hide Spent, WantedTables;
      SpentTwice(memA, freeA, m2, f2, m3, f3, dir, WantedTables(lo, i), i - lo + 1, WantedTables(i, i + done), 0);
      WantedNone(i);
      WantedOnePage(i);
      WantedNext(lo, i);
      assert WantedTables(lo, i) + {} == WantedTables(lo, i);
    }

    /** allocuvm gives up: deallocuvm from newsz back to oldsz. */
    method Rollback(dir: nat, lo: nat, i: nat, hi: nat, oldsz: nat, newsz: nat, ghost memA: Memory, ghost m1: Memory,
                    ghost owner0: Owner, ghost owner: Owner, ghost h: set<nat>)
      returns (ghost owner': Owner)
      requires Holds(dir, owner) && Inv(memA, dir, owner0) && Absent(memA, dir, lo, hi) && h <= held
      requires oldsz <= newsz < KERNBASE && lo == PgUp(oldsz) <= i < hi == PgUp(newsz)
      requires NewPages(memA, m1, dir, lo, i) && SameMap(m1, mem, dir) && Extends(owner0, owner, lo, hi)
      requires SameData(memA, mem, PagesOf(owner0) + h)
      modifies this`mem, this`freelist, this`held
      ensures Holds(dir, owner') && held == old(held) && SamePages(memA, mem, dir) && Extends(owner0, owner', 0, 0)
      ensures SameData(memA, mem, PagesOf(owner0) + h)
    {
      hide Inv, Books, PteOf, NewPages, Extends, Absent, SamePages, SameMap, Cut;
      ghost var m2 := mem;
      var r;
      r, owner' := Deallocuvm(dir, newsz, oldsz, owner);
      RolledBack(memA, m1, m2, mem, dir, owner0, owner, owner', lo, i, hi, held);
      CutData(m2, mem, dir, owner, owner', lo, hi, held);
    }

    /** Free all of an address space: user pages, page tables, directory. Every frame it owned is free
        again, once, since nothing is owned any more and the account still holds. */
    method Freevm(dir: nat, ghost owner: Owner)
      requires Holds(dir, owner)
      modifies this`mem, this`freelist, this`held
      ensures Accounts({}) && held == old(held) && SameData(old(mem), mem, held)
      ensures FreeSet(freelist) == FreeSet(old(freelist)) + owner.Keys && FreeSet(old(freelist)) !! owner.Keys
    {
      hide Inv, Books, PteOf, Cut, Remaining;
      ghost var m0, free0 := mem, freelist;
      var r;
      ghost var owner1: Owner;
      r, owner1 := Deallocuvm(dir, KERNBASE, 0, owner);
      OnlyTables(m0, mem, dir, owner, owner1, held);
      CutData(m0, mem, dir, owner, owner1, 0, USER_PAGES, held);
      HoldsBasics(mem, dir, owner1, freelist, held, mem0, total, first, last);
      ghost var m1 := mem;
      for i := 0 to NPT
        invariant Accounts(Remaining(owner1, i)) && |mem| == |m1| && mem[dir] == m1[dir] && held == old(held)
        invariant SameData(m0, mem, held)
      {
        RemainingNext(m1, dir, owner1, i);
        if IsPresent(mem[dir][i]) {
          Release(FrameOf(mem[dir][i]), Remaining(owner1, i));
        }
      }
      RemainingLast(m1, dir, owner1);
      Release(dir, {dir});
      assert {dir} - {dir} == {};
      AllReturned(m0, free0, owner.Keys, mem, freelist, held, mem0, total, first, last);
    }

    /** kfree a frame that was in use. */
    method Release(f: nat, ghost own: set<nat>)
      requires Accounts(own) && f in own
      modifies this`mem, this`freelist, this`held
      ensures Accounts(own - {f}) && held == old(held) && f < |mem| == |old(mem)| && f !in held
      ensures mem == old(mem)[f := Junk()]
    {
      hide Books;
      ghost var h := held;
      OwnedNotHeld(mem, freelist, own, held, mem0, total, first, last, f);
      Lose(mem, freelist, own, held, mem0, total, first, last, f);
      held := held + {f};
      Kfree(f, own - {f});
      assert held == h;
    }

    /** A new directory with the kernel half; None, and no frame lost, when memory runs out. */
    method Setupkvm(kmap: seq<Region>) returns (r: Option<nat>, ghost owner: Owner)
      requires Accounts({}) && KmapOk(kmap)
      modifies this`mem, this`freelist, this`held
      ensures held == old(held) && SameData(old(mem), mem, held)
      ensures if r.None? then Accounts({})
              else Holds(r.value, owner) && Kmapped(mem, r.value, kmap, |kmap|) && NoUserPages(mem, r.value, 0)
      ensures r.Some? ==> KernelAccess(mem, r.value, kmap) && NoUserAccess(mem, r.value, 0)
      ensures r.None? <==> KernelNeeds(kmap) > |old(freelist)|
      ensures r.Some? ==> SetUp(mem, freelist, r.value, kmap, |kmap|, |old(freelist)|)
    {
      hide Inv, Books, PteOf, Entry, Kmapped, NoUserPages, MappedRange, SetUp, SameData, KernelNeeds, KmapOk;
      hide KernelAccess, NoUserAccess;
      owner := map[];
      ghost var m0, h, count := mem, held, |freelist|;
      var d := Kalloc({});
      if d.None? {
        NeedsDirectory(kmap);
        SameDataSelf(mem, held);
        return None, owner;
      }
      var dir := d.value;
      EmptyDirectory(mem, freelist, held, mem0, total, first, last, dir, kmap);
      mem := mem[dir := Zeroed()];
      held := held - {dir};
      owner := map[dir := Dir];
      assert held == h;
      NothingSetUp(mem, freelist, dir, kmap, count);
      for k := 0 to |kmap|
        invariant SettingUp(dir, kmap, k, m0, h, count, owner)
      {
        var ok;
        ok, owner := MapRegion(dir, kmap, k, m0, h, count, owner);
        if !ok {
          return None, owner;
        }
      }
      AllSetUp(mem, freelist, dir, kmap, count);
      RegionsOk(kmap);
      KmappedAccess(mem, dir, owner, kmap);
      AbsentAccess(mem, dir, owner, 0);
      return d, owner;
    }

    /** The invariant of setupkvm's loop: k regions are mapped. */
    ghost predicate SettingUp(dir: nat, kmap: seq<Region>, k: nat, m0: Memory, h: set<nat>, count: nat, owner: Owner)
      reads this
    {
      && k <= |kmap| && KmapOk(kmap) && Holds(dir, owner) && held == h && SameData(m0, mem, h)
      && Kmapped(mem, dir, kmap, k) && NoUserPages(mem, dir, 0) && SetUp(mem, freelist, dir, kmap, k, count)
    }

    /** mappages for region k; when it fails, the address space has been given back. */
    method MapRegion(dir: nat, kmap: seq<Region>, k: nat, ghost m0: Memory, ghost h: set<nat>, ghost count: nat,
                     ghost owner: Owner)
      returns (ok: bool, ghost owner': Owner)
      requires k < |kmap| && SettingUp(dir, kmap, k, m0, h, count, owner)
      modifies this`mem, this`freelist, this`held
      ensures held == h && SameData(m0, mem, h)
      ensures ok ==> SettingUp(dir, kmap, k + 1, m0, h, count, owner')
      ensures !ok ==> Accounts({}) && KernelNeeds(kmap) > count
    {
      hide Inv, Books, PteOf, Entry, Kmapped, NoUserPages, MappedRange, SetUp, SameData, KernelNeeds, KmapOk;
      hide Spent, WantedTables, Tables, Extends, PagesOf;
      var reg := kmap[k];
      var done;
      ghost var m1, f1 := mem, freelist;
      RegionsOk(kmap);
      HoldsBasics(mem, dir, owner, freelist, held, mem0, total, first, last);
      forall v: nat | reg.vpn <= v < reg.vpn + reg.n ensures dir < |mem| && !IsPresent(PteOf(mem, dir, v)) {
        KmapFree(mem, dir, kmap, k, v);
      }
      ok, done, owner' := Mappages(dir, reg.vpn, reg.n, reg.pa, reg.perm, owner);
      RegionSetUp(m1, f1, mem, freelist, dir, kmap, k, done, count);
      SameDataTwice(m0, m1, mem, h, PagesOf(owner) + h);
      if !ok {
        ghost var m2 := mem;
        Freevm(dir, owner');
        SameDataTwice(m0, m2, mem, h, h);
        return false, owner';
      }
      KmappedNext(m1, mem, dir, kmap, k);
    }

    /** Copy the first sz bytes' pages of `parent`, whose frames lie outside the account, into a new
        address space; None, and no frame lost, when memory runs out. */
    method Copyuvm(parent: nat, sz: nat, kmap: seq<Region>, ghost powner: Owner)
      returns (r: Option<nat>, ghost owner: Owner)
      requires Accounts({}) && KmapOk(kmap) && sz <= KERNBASE && Inv(mem, parent, powner) && powner.Keys !! total
      requires forall v :: 0 <= v < PgUp(sz) ==> IsPresent(PteOf(mem, parent, v))
      modifies this`mem, this`freelist, this`held
      ensures held == old(held) && SameData(old(mem), mem, powner.Keys) && Inv(mem, parent, powner)
      ensures if r.None? then Accounts({})
              else && Holds(r.value, owner) && Copied(old(mem), mem, parent, r.value, PgUp(sz))
                   && NoUserPages(mem, r.value, PgUp(sz))
                   && Kmapped(mem, r.value, kmap, |kmap|) && owner.Keys !! powner.Keys
                   && SameAccess(old(mem), parent, mem, r.value, PgUp(sz)) && NoUserAccess(mem, r.value, PgUp(sz))
                   && KernelAccess(mem, r.value, kmap)
      ensures r.None? <==> CopyNeeds(kmap, PgUp(sz)) > |old(freelist)|
    {
      hide Inv, Books, PteOf, Entry, Kmapped, NoUserPages, MappedRange, Copied, KmapOk;
      hide SetUp, Spent, PageNeeds, WantedTables, KernelNeeds, SameAccess, NoUserAccess, KernelAccess;
      RegionsOk(kmap);
      ghost var memA, freeA, h := mem, freelist, held;
      r, owner := Setupkvm(kmap);
      ParentUntouched(memA, freeA, {}, h, parent, powner, if r.None? then {} else owner.Keys);
      if r.None? {
        return;
      }
      var d := r.value;
      HoldsBasics(mem, d, owner, freelist, held, mem0, total, first, last);
      InvDirs(memA, parent, powner);
      CopiedNone(memA, mem, parent, d);
      ghost var memB, freeB := mem, freelist;
      CopyNeedsMore(memB, freeB, d, kmap, PgUp(sz), |old(freelist)|);
      WantedNone(0);
      SpentNothing(mem, freelist, mem, d);
      var i := 0;
      while i * PGSIZE < sz
        invariant 0 <= i <= PgUp(sz) && Copying(d, i, kmap, memA, h, parent, owner)
        invariant Spent(memB, freeB, mem, freelist, d, WantedTables(0, i), i)
        decreases PgUp(sz) - i
      {
        var ok;
        ok, owner := CopyPage(d, i, kmap, memA, freeA, h, parent, powner, owner, memB, freeB, PgUp(sz));
        if !ok {
          Freevm(d, owner);
          ParentUntouched(memA, freeA, {}, h, parent, powner, {});
          return None, owner;
        }
        i := i + 1;
      }
      EnoughFrames(memB, freeB, mem, freelist, d, 0, PgUp(sz));
      ParentUntouched(memA, freeA, {}, h, parent, powner, owner.Keys);
      OwnInTotal(mem, freelist, owner.Keys, held, mem0, total, first, last);
      CopiedAccess(memA, parent, powner, mem, d, owner, PgUp(sz));
      AbsentAccess(mem, d, owner, PgUp(sz));
      KmappedAccess(mem, d, owner, kmap);
    }

    /** The invariant of copyuvm's loop. */
    ghost predicate Copying(d: nat, i: nat, kmap: seq<Region>, memA: Memory, h: set<nat>, parent: nat, owner: Owner)
      requires KmapOk(kmap)
      reads this
    {
      && Holds(d, owner) && held == h && Copied(memA, mem, parent, d, i) && NoUserPages(mem, d, i)
      && Kmapped(mem, d, kmap, |kmap|)
    }

    /** One round of copyuvm's loop; on failure the copied frame has been put back. */
    method CopyPage(d: nat, i: nat, kmap: seq<Region>, ghost memA: Memory, ghost freeA: seq<nat>, ghost h: set<nat>,
                    parent: nat, ghost powner: Owner, ghost owner: Owner,
                    ghost memB: Memory, ghost freeB: seq<nat>, ghost n: nat)
      returns (ok: bool, ghost owner': Owner)
      requires KmapOk(kmap) && Copying(d, i, kmap, memA, h, parent, owner) && i < USER_PAGES
      requires Books(memA, freeA, {}, h, mem0, total, first, last) && Inv(memA, parent, powner) && powner.Keys !! total
      requires parent < |memA| && IsPresent(PteOf(memA, parent, i))
      requires d < |memB| && i < n <= USER_PAGES
      requires Spent(memB, freeB, mem, freelist, d, WantedTables(0, i), i)
      modifies this`mem, this`freelist, this`held
      ensures Holds(d, owner') && held == h && (ok ==> Copying(d, i + 1, kmap, memA, h, parent, owner'))
      ensures ok ==> Spent(memB, freeB, mem, freelist, d, WantedTables(0, i + 1), i + 1)
      ensures !ok ==> PageNeeds(memB, d, 0, n) > |freeB|
    {
      hide Inv, Books, Entry, Kmapped, NoUserPages, MappedRange, Copied, KmapOk, SameMap, PteOf;
      hide Spent, WantedTables, Tables, PageNeeds;
      owner' := owner;
      ghost var f1 := freelist;
      ParentKept(memA, mem, freelist, owner.Keys, held, mem0, total, first, last, freeA, {}, h, parent, powner, i);
      PresentPte(mem, parent, powner, i);
      var pte := mem[TableOf(mem, parent, i)][i % NPT];
      var pa, flags := FrameOf(pte), FlagsOf(pte);
      var f := Kalloc(owner.Keys);
      if f.None? {
        TooFewFrames(memB, freeB, mem, d, 0, i, n, 0);
        return false, owner;
      }
      ghost var m1, page := mem, mem[pa];
      HeldWrite(mem, freelist, held, mem0, total, first, last, d, owner, f.value, page);
      mem := mem[f.value := mem[pa]];
      ghost var m2 := mem;
      PageTaken(memB, freeB, m1, f1, m2, d, owner, 0, i, f.value);
      NextAbsent(m1, m2, d, i);
      var done;
      ok, done, owner' := Mappages(d, i, 1, f.value, flags, owner);
      PageMapped(memB, freeB, m2, f1[1..], mem, freelist, d, 0, i, done);
      if !ok {
        TooFewFrames(memB, freeB, mem, d, 0, i, n, 1);
        HeldWrite(mem, freelist, held, mem0, total, first, last, d, owner', f.value, Junk());
        Kfree(f.value, owner'.Keys);
        return false, owner';
      }
      CopiedOne(memA, m1, m2, mem, parent, d, owner, i, f.value, h + {f.value});
      HalvesKept(m1, m2, mem, d, kmap, i, f.value, flags);
    }

    /** What lies outside the account has not changed. */
    lemma ParentUntouched(memA: Memory, freeA: seq<nat>, ownA: set<nat>, heldA: set<nat>, parent: nat, powner: Owner,
                          own: set<nat>)
      requires Books(memA, freeA, ownA, heldA, mem0, total, first, last) && Accounts(own)
      requires Inv(memA, parent, powner) && powner.Keys !! total
      ensures SameData(memA, mem, powner.Keys) && Inv(mem, parent, powner) && |mem| == |memA|
    {
      forall f | f in powner && f < |mem| ensures mem[f] == memA[f] {
        assert f !in total;
      }
      ParentKept(memA, mem, freelist, own, held, mem0, total, first, last, freeA, ownA, heldA, parent, powner, 0);
    }
  }
}
