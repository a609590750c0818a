/** What the hardware lets a process do with a page: the directory entry and the page table entry must both
    allow it. */
module PageAccess {
  import opened Params
  import opened PageTables
  import opened VmSteps

  datatype Access = NoAccess | Access(user: bool, write: bool)

  function AccessOf(mem: Memory, dir: nat, vpn: nat): Access
    requires dir < |mem| && vpn < ALL_PAGES
  {
    var pde, pte := mem[dir][vpn / NPT], PteOf(mem, dir, vpn);
    if IsPresent(pde) && IsPresent(pte)
    then Access(AllowsUser(pde) && AllowsUser(pte), AllowsWrite(pde) && AllowsWrite(pte))
    else NoAccess
  }

  /** What permission bits ask for. */
  function Granted(perm: nat): Access {
    Access(AllowsUser(perm), AllowsWrite(perm))
  }

  /** Pages lo, ..., hi-1 have become accessible as perm says, and no other page's access has changed. */
  ghost predicate AccessGiven(mem: Memory, mem': Memory, dir: nat, lo: nat, hi: nat, perm: nat) {
    && dir < |mem| == |mem'|
    && forall v :: 0 <= v < ALL_PAGES ==>
         AccessOf(mem', dir, v) == if lo <= v < hi then Granted(perm) else AccessOf(mem, dir, v)
  }

  /** In an address space made by walkpgdir the page table entry decides. */
  lemma EntryDecides(mem: Memory, dir: nat, owner: Owner, v: nat)
    requires Inv(mem, dir, owner) && v < ALL_PAGES
    ensures dir < |mem|
    ensures var pte := PteOf(mem, dir, v); AccessOf(mem, dir, v) == if IsPresent(pte) then Granted(pte) else NoAccess
  {
    assert TableOwned(mem, dir, owner, v / NPT);
  }

  lemma SameEntrySameAccess(mem: Memory, dir: nat, owner: Owner, mem': Memory, dir': nat, owner': Owner, v: nat)
    requires Inv(mem, dir, owner) && Inv(mem', dir', owner') && v < ALL_PAGES
    requires FlagsOf(PteOf(mem', dir', v)) == FlagsOf(PteOf(mem, dir, v))
    ensures AccessOf(mem', dir', v) == AccessOf(mem, dir, v)
  {
    hide Inv, PteOf;
    EntryDecides(mem, dir, owner, v);
    EntryDecides(mem', dir', owner', v);
    FlagBits(PteOf(mem, dir, v));
    FlagBits(PteOf(mem', dir', v));
  }

  lemma EntryGrants(mem: Memory, dir: nat, owner: Owner, v: nat, f: nat, perm: nat)
    requires Inv(mem, dir, owner) && v < ALL_PAGES && f < ALL_PAGES && perm < PGSIZE
    requires PteOf(mem, dir, v) == Entry(f, perm)
    ensures AccessOf(mem, dir, v) == Granted(perm)
  {
    hide Inv, PteOf, Entry;
    EntryDecides(mem, dir, owner, v);
    EntryParts(f, perm);
  }

  lemma MappedAccess(mem: Memory, owner: Owner, mem': Memory, owner': Owner, dir: nat, vpn: nat, n: nat, pa: nat,
                     perm: nat)
    requires Inv(mem, dir, owner) && Inv(mem', dir, owner') && perm < PGSIZE && pa + n <= ALL_PAGES
    requires vpn + n <= ALL_PAGES && MappedRange(mem, mem', dir, vpn, n, pa, perm)
    ensures AccessGiven(mem, mem', dir, vpn, vpn + n, perm)
  {
    hide Inv, PteOf, Entry, AccessOf, Granted;
    forall v | 0 <= v < ALL_PAGES
      ensures AccessOf(mem', dir, v) == if vpn <= v < vpn + n then Granted(perm) else AccessOf(mem, dir, v)
    {
      if vpn <= v < vpn + n {
        EntryGrants(mem', dir, owner', v, pa + (v - vpn), perm);
      } else {
        SameEntrySameAccess(mem, dir, owner, mem', dir, owner', v);
      }
    }
  }

  lemma NewAccess(mem: Memory, owner: Owner, mem': Memory, owner': Owner, dir: nat, lo: nat, hi: nat)
    requires Inv(mem, dir, owner) && Inv(mem', dir, owner') && NewPages(mem, mem', dir, lo, hi)
    ensures AccessGiven(mem, mem', dir, lo, hi, 6)
  {
    hide Inv, PteOf, AccessOf;
    forall v | 0 <= v < ALL_PAGES
      ensures AccessOf(mem', dir, v) == if lo <= v < hi then Granted(6) else AccessOf(mem, dir, v)
    {
      if lo <= v < hi {
        assert ZeroPage(mem', dir, v);
        EntryDecides(mem', dir, owner', v);
        FlagBits(PteOf(mem', dir, v));
      } else {
        SameEntrySameAccess(mem, dir, owner, mem', dir, owner', v);
      }
    }
  }

  /** The kernel half is accessible as the regions say and to nobody else, the user half not at all. */
  ghost predicate KernelAccess(mem: Memory, dir: nat, kmap: seq<Region>)
    requires forall j :: 0 <= j < |kmap| ==> kmap[j].Ok()
  {
    && dir < |mem|
    && (forall j, v: nat :: 0 <= j < |kmap| && kmap[j].Ok() && kmap[j].Has(v) ==>
          AccessOf(mem, dir, v) == Granted(kmap[j].perm))
    && (forall v :: USER_PAGES <= v < ALL_PAGES && (forall j :: 0 <= j < |kmap| ==> !kmap[j].Has(v)) ==>
          AccessOf(mem, dir, v) == NoAccess)
  }

  lemma KmappedAccess(mem: Memory, dir: nat, owner: Owner, kmap: seq<Region>)
    requires (forall j :: 0 <= j < |kmap| ==> kmap[j].Ok()) && Inv(mem, dir, owner) && Kmapped(mem, dir, kmap, |kmap|)
    ensures KernelAccess(mem, dir, kmap)
  {
    hide Inv, PteOf, Entry, AccessOf, Granted;
    forall j, v: nat | 0 <= j < |kmap| && kmap[j].Ok() && kmap[j].Has(v)
      ensures AccessOf(mem, dir, v) == Granted(kmap[j].perm)
    {
      EntryGrants(mem, dir, owner, v, kmap[j].pa + (v - kmap[j].vpn), kmap[j].perm);
    }
    forall v | USER_PAGES <= v < ALL_PAGES && (forall j :: 0 <= j < |kmap| ==> !kmap[j].Has(v))
      ensures AccessOf(mem, dir, v) == NoAccess
    {
      EntryDecides(mem, dir, owner, v);
    }
  }

  /** No access to user pages from lo on. */
  ghost predicate NoUserAccess(mem: Memory, dir: nat, lo: nat) {
    dir < |mem| && forall v :: lo <= v < USER_PAGES ==> AccessOf(mem, dir, v) == NoAccess
  }

  lemma AbsentAccess(mem: Memory, dir: nat, owner: Owner, lo: nat)
    requires Inv(mem, dir, owner) && NoUserPages(mem, dir, lo)
    ensures NoUserAccess(mem, dir, lo)
  {
    hide Inv, PteOf, AccessOf;
    forall v | lo <= v < USER_PAGES ensures AccessOf(mem, dir, v) == NoAccess {
      EntryDecides(mem, dir, owner, v);
    }
  }

  /** User pages below n are accessible in the one address space as in the other. */
  ghost predicate SameAccess(mem: Memory, dir: nat, mem': Memory, dir': nat, n: nat) {
    && dir < |mem| && dir' < |mem'| && n <= USER_PAGES
    && forall v :: 0 <= v < n ==> AccessOf(mem', dir', v) == AccessOf(mem, dir, v)
  }

  lemma CopiedAccess(mem: Memory, parent: nat, powner: Owner, mem': Memory, d: nat, owner: Owner, n: nat)
    requires Inv(mem, parent, powner) && Inv(mem', d, owner) && Copied(mem, mem', parent, d, n)
    ensures SameAccess(mem, parent, mem', d, n)
  {
    hide Inv, PteOf, AccessOf;
    forall v | 0 <= v < n ensures AccessOf(mem', d, v) == AccessOf(mem, parent, v) {
      assert CopyOf(mem, mem', parent, d, v);
      SameEntrySameAccess(mem, parent, powner, mem', d, owner, v);
    }
  }
}
