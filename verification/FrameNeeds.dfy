/** How many frames it takes to map pages: the pages themselves and the page tables that are missing. */
module FrameNeeds {
  import opened Params
  import opened PageTables
  import opened VmSteps
  import opened Counting

  /** The directory entries that have a page table. */
  ghost function Tables(mem: Memory, dir: nat): set<nat>
    requires dir < |mem|
  {
    set d: nat | d < NPT && IsPresent(mem[dir][d])
  }

  /** The directory entries that pages lo, ..., hi-1 need. */
  ghost function WantedTables(lo: nat, hi: nat): set<nat> {
    set d: nat | d < NPT && InRange(d, lo, hi)
  }

  predicate InRange(d: nat, lo: nat, hi: nat) {
    lo < hi && lo / NPT <= d <= (hi - 1) / NPT
  }

  /** Frames for hi-lo new pages in an address space. */
  ghost function PageNeeds(mem: Memory, dir: nat, lo: nat, hi: nat): nat
    requires dir < |mem| && lo <= hi
  {
    hi - lo + |WantedTables(lo, hi) - Tables(mem, dir)|
  }

  /** From one state to another, `pages` free frames have become pages and one each the tables in `more`. */
  ghost predicate Spent(mem: Memory, free: seq<nat>, mem': Memory, free': seq<nat>, dir: nat, more: set<nat>,
                        pages: nat)
  {
    && dir < |mem| == |mem'| && Tables(mem', dir) == Tables(mem, dir) + more
    && |free'| + |Tables(mem', dir)| + pages == |free| + |Tables(mem, dir)|
  }

  lemma SpentNothing(mem: Memory, free: seq<nat>, mem': Memory, dir: nat)
    requires dir < |mem| == |mem'| && mem'[dir] == mem[dir]
    ensures Spent(mem, free, mem', free, dir, {}, 0)
  {
  }

  /** A table that was there already. */
  lemma SpentNoTable(mem: Memory, free: seq<nat>, dir: nat, d: nat)
    requires dir < |mem| && d < NPT && IsPresent(mem[dir][d])
    ensures Spent(mem, free, mem, free, dir, {d}, 0)
  {
    assert Tables(mem, dir) == Tables(mem, dir) + {d};
  }

  lemma SpentTable(mem: Memory, free: seq<nat>, dir: nat, d: nat, t: nat)
    requires dir < |mem| && t < |mem| <= ALL_PAGES && t != dir && d < NPT && !IsPresent(mem[dir][d]) && free != []
    ensures Spent(mem, free, WithTable(mem, dir, d, t), free[1..], dir, {d}, 0)
  {
    EntryParts(t, 7);
    assert Tables(WithTable(mem, dir, d, t), dir) == Tables(mem, dir) + {d} && d !in Tables(mem, dir);
  }

  /** kalloc for a page. */
  lemma SpentPage(mem: Memory, free: seq<nat>, dir: nat)
    requires dir < |mem| && free != []
    ensures Spent(mem, free, mem, free[1..], dir, {}, 1)
  {
  }

  lemma SpentTwice(mem: Memory, free: seq<nat>, m1: Memory, f1: seq<nat>, m2: Memory, f2: seq<nat>, dir: nat,
                   more: set<nat>, pages: nat, more1: set<nat>, pages1: nat)
    requires Spent(mem, free, m1, f1, dir, more, pages) && Spent(m1, f1, m2, f2, dir, more1, pages1)
    ensures Spent(mem, free, m2, f2, dir, more + more1, pages + pages1)
  {
    hide Tables;
  }

  lemma WantedNone(lo: nat)
    ensures WantedTables(lo, lo) == {}
  {
  }

  lemma WantedOnePage(v: nat)
    requires v < ALL_PAGES
    ensures v / NPT < NPT && WantedTables(v, v + 1) == {v / NPT}
  {
  }

  lemma WantedNext(lo: nat, i: nat)
    requires lo <= i < ALL_PAGES
    ensures i / NPT < NPT && WantedTables(lo, i) + {i / NPT} == WantedTables(lo, i + 1)
  {
    forall d: nat | d < NPT ensures InRange(d, lo, i + 1) <==> InRange(d, lo, i) || d == i / NPT {
    }
  }

  lemma WantedMore(lo: nat, i: nat, hi: nat)
    requires lo <= i <= hi
    ensures WantedTables(lo, i) <= WantedTables(lo, hi)
  {
  }

  /** All pages were mapped, so there were frames enough. */
  lemma EnoughFrames(mem: Memory, free: seq<nat>, mem': Memory, free': seq<nat>, dir: nat, lo: nat, hi: nat)
    requires lo <= hi && Spent(mem, free, mem', free', dir, WantedTables(lo, hi), hi - lo)
    ensures PageNeeds(mem, dir, lo, hi) <= |free|
  {
    hide Tables, WantedTables;
    assert Tables(mem, dir) + WantedTables(lo, hi) == Tables(mem, dir) + (WantedTables(lo, hi) - Tables(mem, dir));
  }

  /** Before all were mapped the frames ran out, for a page or, with the page allocated, for its table. */
  lemma TooFewFrames(mem: Memory, free: seq<nat>, mem': Memory, dir: nat, lo: nat, i: nat, hi: nat, extra: nat)
    requires lo <= i < hi <= ALL_PAGES && extra <= 1
    requires Spent(mem, free, mem', [], dir, WantedTables(lo, i), i - lo + extra)
    requires extra == 1 ==> i / NPT !in Tables(mem', dir)
    ensures PageNeeds(mem, dir, lo, hi) > |free|
  {
    WantedNext(lo, i);
    WantedMore(lo, i + 1, hi);
    hide Tables, WantedTables;
    var t0, t1 := Tables(mem, dir), Tables(mem', dir);
    var more := WantedTables(lo, hi) - t0;
    if extra == 1 {
      SubsetIsNoLarger((t1 - t0) + {i / NPT}, more);
    } else {
      SubsetIsNoLarger(t1 - t0, more);
    }
    assert t1 == t0 + (t1 - t0);
  }

  // ----- setupkvm and copyuvm

  /** The tables of the first k regions of kmap. */
  ghost function KernelTables(kmap: seq<Region>, k: nat): set<nat>
    requires k <= |kmap|
  {
    if k == 0 then {} else KernelTables(kmap, k - 1) + WantedTables(kmap[k - 1].vpn, kmap[k - 1].vpn + kmap[k - 1].n)
  }

  /** Frames for a directory with the kernel half. */
  ghost function KernelNeeds(kmap: seq<Region>): nat {
    1 + |KernelTables(kmap, |kmap|)|
  }

  lemma NeedsDirectory(kmap: seq<Region>)
    ensures KernelNeeds(kmap) > 0
  {
  }

  lemma {:induction false} KernelTablesGrow(kmap: seq<Region>, j: nat, k: nat)
    requires j <= k <= |kmap|
    ensures KernelTables(kmap, j) <= KernelTables(kmap, k)
  {
    hide WantedTables;
    if j < k {
      KernelTablesGrow(kmap, j, k - 1);
    }
  }

  /** Part of region k is mapped and the next table cannot be had. */
  lemma TooFewForKernel(mem: Memory, dir: nat, kmap: seq<Region>, k: nat, done: nat)
    requires k < |kmap| && kmap[k].Ok() && done < kmap[k].n && dir < |mem|
    requires Tables(mem, dir) == KernelTables(kmap, k) + WantedTables(kmap[k].vpn, kmap[k].vpn + done)
    requires (kmap[k].vpn + done) / NPT !in Tables(mem, dir)
    ensures KernelNeeds(kmap) > 1 + |Tables(mem, dir)|
  {
    hide Tables, WantedTables, KernelTables;
    var lo := kmap[k].vpn;
    WantedNext(lo, lo + done);
    WantedMore(lo, lo + done + 1, lo + kmap[k].n);
    KernelTablesNext(kmap, k);
    KernelTablesGrow(kmap, k + 1, |kmap|);
    var t, more, all := Tables(mem, dir), WantedTables(lo, lo + done + 1), KernelTables(kmap, |kmap|);
    assert t + {(lo + done) / NPT} == KernelTables(kmap, k) + more;
    SubsetIsNoLarger(t + {(lo + done) / NPT}, all);
  }

  lemma KernelTablesNext(kmap: seq<Region>, k: nat)
    requires k < |kmap|
    ensures KernelTables(kmap, k + 1) == KernelTables(kmap, k) + WantedTables(kmap[k].vpn, kmap[k].vpn + kmap[k].n)
  {
    hide WantedTables;
  }

  lemma {:induction false} KernelTablesAbove(kmap: seq<Region>, k: nat)
    requires k <= |kmap| && forall j :: 0 <= j < |kmap| ==> kmap[j].Ok()
    ensures forall d :: d in KernelTables(kmap, k) ==> d >= USER_PAGES / NPT
  {
    if k > 0 {
      KernelTablesAbove(kmap, k - 1);
    }
  }

  /** User pages and the kernel half share no table. */
  lemma HalvesApart(mem: Memory, dir: nat, kmap: seq<Region>, n: nat)
    requires (forall j :: 0 <= j < |kmap| ==> kmap[j].Ok()) && n <= USER_PAGES && dir < |mem|
    requires Tables(mem, dir) == KernelTables(kmap, |kmap|)
    ensures PageNeeds(mem, dir, 0, n) == n + |WantedTables(0, n)|
  {
    KernelTablesAbove(kmap, |kmap|);
    assert WantedTables(0, n) - Tables(mem, dir) == WantedTables(0, n);
  }

  /** Of `count` free frames one has become the directory, and one each the tables of k regions. */
  ghost predicate SetUp(mem: Memory, free: seq<nat>, dir: nat, kmap: seq<Region>, k: nat, count: nat) {
    && k <= |kmap| && dir < |mem| && Tables(mem, dir) == KernelTables(kmap, k)
    && |free| + 1 + |Tables(mem, dir)| == count
  }

  lemma NothingSetUp(mem: Memory, free: seq<nat>, dir: nat, kmap: seq<Region>, count: nat)
    requires dir < |mem| && mem[dir] == Zeroed() && |free| + 1 == count
    ensures SetUp(mem, free, dir, kmap, 0, count)
  {
    assert Tables(mem, dir) == {};
  }

  lemma AllSetUp(mem: Memory, free: seq<nat>, dir: nat, kmap: seq<Region>, count: nat)
    requires SetUp(mem, free, dir, kmap, |kmap|, count)
    ensures KernelNeeds(kmap) <= count
  {
  }

  lemma RegionSetUp(m1: Memory, f1: seq<nat>, m2: Memory, f2: seq<nat>, dir: nat, kmap: seq<Region>, k: nat, done: nat,
                    count: nat)
    requires k < |kmap| && kmap[k].Ok() && done <= kmap[k].n && SetUp(m1, f1, dir, kmap, k, count)
    requires Spent(m1, f1, m2, f2, dir, WantedTables(kmap[k].vpn, kmap[k].vpn + done), 0)
    ensures done == kmap[k].n ==> SetUp(m2, f2, dir, kmap, k + 1, count)
    ensures dir < |m2|
    ensures done < kmap[k].n && f2 == [] && (kmap[k].vpn + done) / NPT !in Tables(m2, dir) ==> KernelNeeds(kmap) > count
  {
    hide WantedTables, Tables;
    if done < kmap[k].n && f2 == [] && (kmap[k].vpn + done) / NPT !in Tables(m2, dir) {
      TooFewForKernel(m2, dir, kmap, k, done);
    }
  }

  lemma RegionsOk(kmap: seq<Region>)
    requires KmapOk(kmap)
    ensures forall j :: 0 <= j < |kmap| ==> kmap[j].Ok()
  {
  }

  /** Frames for a copy of the first n user pages: the kernel half, the pages and their tables. */
  ghost function CopyNeeds(kmap: seq<Region>, n: nat): nat {
    KernelNeeds(kmap) + n + |WantedTables(0, n)|
  }

  /** With the kernel half set up, what copyuvm still needs. */
  lemma CopyNeedsMore(mem: Memory, free: seq<nat>, dir: nat, kmap: seq<Region>, n: nat, count: nat)
    requires SetUp(mem, free, dir, kmap, |kmap|, count) && n <= USER_PAGES
    requires forall j :: 0 <= j < |kmap| ==> kmap[j].Ok()
    ensures PageNeeds(mem, dir, 0, n) > |free| <==> CopyNeeds(kmap, n) > count
  {
    HalvesApart(mem, dir, kmap, n);
  }
}
