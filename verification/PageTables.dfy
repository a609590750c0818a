/** Two-level page tables in physical memory: who owns which frame, and how the steps of walkpgdir,
    mappages and deallocuvm keep that. Frames and pages are counted, not addressed by byte. */
module PageTables {
  import opened Params

  const NPT: nat := 1024           // entries of a page directory or page table
  const USER_PAGES: nat := 0x80000 // pages below KERNBASE
  const ALL_PAGES: nat := 0x10_0000

  type Word = Uint
  type Frame = f: seq<Word> | |f| == NPT witness Zeroed()
  type Memory = seq<Frame>

  function Zeroed(): (f: seq<Word>)
    ensures |f| == NPT && forall k :: 0 <= k < NPT ==> f[k] == 0
  {
    seq<Word>(NPT, _ => 0)
  }

  function FrameOf(w: Word): nat {
    w / PGSIZE
  }

  function FlagsOf(w: Word): nat {
    w % PGSIZE
  }

  predicate IsPresent(w: Word) {
    w % 2 == 1
  }

  /** PTE_W and PTE_U. */
  predicate AllowsWrite(w: nat) {
    w / 2 % 2 == 1
  }

  predicate AllowsUser(w: nat) {
    w / 4 % 2 == 1
  }

  /** A directory entry that leaves it to the page table entries what is allowed. */
  predicate Open(w: Word) {
    AllowsWrite(w) && AllowsUser(w)
  }

  /** pa | perm | PTE_P, for the frame at pa. */
  function Entry(f: nat, perm: nat): Word
    requires f < ALL_PAGES && perm < PGSIZE
  {
    f * PGSIZE + if perm % 2 == 0 then perm + 1 else perm
  }

  lemma EntryParts(f: nat, perm: nat)
    requires f < ALL_PAGES && perm < PGSIZE
    ensures FrameOf(Entry(f, perm)) == f && IsPresent(Entry(f, perm))
    ensures FlagsOf(Entry(f, perm)) == if perm % 2 == 0 then perm + 1 else perm
    ensures AllowsWrite(Entry(f, perm)) == AllowsWrite(perm) && AllowsUser(Entry(f, perm)) == AllowsUser(perm)
  {
    var flags := if perm % 2 == 0 then perm + 1 else perm;
    assert flags < PGSIZE && f * PGSIZE + flags == 2 * (2048 * f) + flags;
    Quotient(f, flags);
    FlagBits(Entry(f, perm));
    assert AllowsWrite(flags) == AllowsWrite(perm) && AllowsUser(flags) == AllowsUser(perm);
  }

  /** The bits are among the flags. */
  lemma FlagBits(w: Word)
    ensures AllowsWrite(w) == AllowsWrite(FlagsOf(w)) && AllowsUser(w) == AllowsUser(FlagsOf(w))
    ensures IsPresent(w) == IsPresent(FlagsOf(w))
  {
    var f, r := w / PGSIZE, w % PGSIZE;
    assert w == PGSIZE * f + r;
    Halved(w, 2048 * f, r);
    Halved(w / 2, 1024 * f, r / 2);
    Halved(w / 4, 512 * f, r / 4);
  }

  lemma Halved(w: nat, half: nat, r: nat)
    requires w == 2 * half + r
    ensures w / 2 == half + r / 2 && w % 2 == r % 2 && w / 2 / 2 == w / 4 && r / 2 / 2 == r / 4
  {
  }

  lemma Quotient(f: nat, r: nat)
    requires r < PGSIZE
    ensures (f * PGSIZE + r) / PGSIZE == f && (f * PGSIZE + r) % PGSIZE == r
  {
  }

  /** What a frame of an address space is used for. */
  datatype Role = Dir | Table(d: nat) | Page(vpn: nat)

  type Owner = map<nat, Role>

  /** The page table entry the hardware finds for a page, 0 when there is no table. */
  function PteOf(mem: Memory, dir: nat, vpn: nat): Word
    requires dir < |mem| && vpn < ALL_PAGES
  {
    var pde := mem[dir][vpn / NPT];
    if IsPresent(pde) && FrameOf(pde) < |mem| then mem[FrameOf(pde)][vpn % NPT] else 0
  }

  ghost predicate RoleOk(mem: Memory, dir: nat, f: nat, role: Role)
    requires dir < |mem|
  {
    && f < |mem|
    && match role {
         case Dir => f == dir
         case Table(d) => d < NPT && IsPresent(mem[dir][d]) && FrameOf(mem[dir][d]) == f
         case Page(vpn) => vpn < USER_PAGES && IsPresent(PteOf(mem, dir, vpn)) && FrameOf(PteOf(mem, dir, vpn)) == f
       }
  }

  ghost predicate TableOwned(mem: Memory, dir: nat, owner: Owner, d: nat)
    requires dir < |mem| && d < NPT
  {
    var pde := mem[dir][d]; IsPresent(pde) ==> FrameOf(pde) in owner && owner[FrameOf(pde)] == Table(d) && Open(pde)
  }

  ghost predicate PageOwned(mem: Memory, dir: nat, owner: Owner, vpn: nat)
    requires dir < |mem| && vpn < USER_PAGES
  {
    var pte := PteOf(mem, dir, vpn); IsPresent(pte) ==> FrameOf(pte) in owner && owner[FrameOf(pte)] == Page(vpn)
  }

  /** The directory, its tables and the frames of its user pages are the owned frames, each in one role, and the
      directory allows everything. */
  ghost predicate Inv(mem: Memory, dir: nat, owner: Owner) {
    && dir < |mem| && dir in owner && owner[dir] == Dir
    && (forall f :: f in owner ==> RoleOk(mem, dir, f, owner[f]))
    && (forall d :: 0 <= d < NPT ==> TableOwned(mem, dir, owner, d))
    && (forall vpn :: 0 <= vpn < USER_PAGES ==> PageOwned(mem, dir, owner, vpn))
  }

  /** The frames that hold the directory and the tables are as they were. */
  ghost predicate SameTables(mem: Memory, mem': Memory, owner: Owner) {
    |mem'| == |mem| && forall f :: f in owner && f < |mem| && !owner[f].Page? ==> mem'[f] == mem[f]
  }

  lemma SamePte(mem: Memory, mem': Memory, dir: nat, owner: Owner, vpn: nat)
    requires Inv(mem, dir, owner) && SameTables(mem, mem', owner) && vpn < ALL_PAGES
    ensures PteOf(mem', dir, vpn) == PteOf(mem, dir, vpn)
  {
    assert TableOwned(mem, dir, owner, vpn / NPT);
  }

  /** Writing elsewhere, or into user pages, does not affect an address space. */
  lemma SameSpace(mem: Memory, mem': Memory, dir: nat, owner: Owner)
    requires Inv(mem, dir, owner) && SameTables(mem, mem', owner)
    ensures Inv(mem', dir, owner)
  {
    forall vpn | 0 <= vpn < USER_PAGES ensures PageOwned(mem', dir, owner, vpn) {
      assert PageOwned(mem, dir, owner, vpn);
      SamePte(mem, mem', dir, owner, vpn);
    }
    forall d | 0 <= d < NPT ensures TableOwned(mem', dir, owner, d) {
      assert TableOwned(mem, dir, owner, d);
    }
    forall f | f in owner ensures RoleOk(mem', dir, f, owner[f]) {
      assert RoleOk(mem, dir, f, owner[f]);
      if owner[f].Page? {
        SamePte(mem, mem', dir, owner, owner[f].vpn);
      }
    }
  }

  // ----- walkpgdir

  /** A zeroed table in frame t for directory entry d. */
  function WithTable(mem: Memory, dir: nat, d: nat, t: nat): (mem': Memory)
    requires dir < |mem| && t < |mem| <= ALL_PAGES && d < NPT
    ensures |mem'| == |mem|
  {
    mem[t := Zeroed()][dir := mem[dir][d := Entry(t, 7)]]
  }

  lemma TablePte(mem: Memory, dir: nat, owner: Owner, d: nat, t: nat, vpn: nat)
    requires Inv(mem, dir, owner) && t < |mem| <= ALL_PAGES && t !in owner && d < NPT && !IsPresent(mem[dir][d])
    requires vpn < ALL_PAGES
    ensures PteOf(WithTable(mem, dir, d, t), dir, vpn) == PteOf(mem, dir, vpn)
  {
    EntryParts(t, 7);
    assert TableOwned(mem, dir, owner, vpn / NPT);
  }

  lemma TableKeeps(mem: Memory, dir: nat, owner: Owner, d: nat, t: nat)
    requires Inv(mem, dir, owner) && t < |mem| <= ALL_PAGES && t !in owner && d < NPT && !IsPresent(mem[dir][d])
    ensures Inv(WithTable(mem, dir, d, t), dir, owner[t := Table(d)])
  {
    var mem', owner' := WithTable(mem, dir, d, t), owner[t := Table(d)];
    EntryParts(t, 7);
    forall vpn | 0 <= vpn < USER_PAGES ensures PageOwned(mem', dir, owner', vpn) {
      assert PageOwned(mem, dir, owner, vpn);
      TablePte(mem, dir, owner, d, t, vpn);
    }
    forall e | 0 <= e < NPT ensures TableOwned(mem', dir, owner', e) {
      assert TableOwned(mem, dir, owner, e);
    }
    forall f | f in owner' ensures RoleOk(mem', dir, f, owner'[f]) {
      if f != t {
        assert RoleOk(mem, dir, f, owner[f]);
        if owner[f].Page? {
          TablePte(mem, dir, owner, d, t, owner[f].vpn);
        }
      }
    }
  }

  // ----- page table entries

  function TableOf(mem: Memory, dir: nat, vpn: nat): nat
    requires dir < |mem| && vpn < ALL_PAGES
  {
    FrameOf(mem[dir][vpn / NPT])
  }

  predicate HasTable(mem: Memory, dir: nat, vpn: nat)
    requires dir < |mem| && vpn < ALL_PAGES
  {
    IsPresent(mem[dir][vpn / NPT]) && TableOf(mem, dir, vpn) < |mem|
  }

  function WithPte(mem: Memory, dir: nat, vpn: nat, w: Word): (mem': Memory)
    requires dir < |mem| && vpn < ALL_PAGES && HasTable(mem, dir, vpn)
    ensures |mem'| == |mem|
  {
    var t := TableOf(mem, dir, vpn); mem[t := mem[t][vpn % NPT := w]]
  }

  lemma PteSet(mem: Memory, dir: nat, owner: Owner, vpn: nat, w: Word, v: nat)
    requires Inv(mem, dir, owner) && vpn < ALL_PAGES && HasTable(mem, dir, vpn) && v < ALL_PAGES
    ensures WithPte(mem, dir, vpn, w)[dir] == mem[dir]
    ensures PteOf(WithPte(mem, dir, vpn, w), dir, v) == if v == vpn then w else PteOf(mem, dir, v)
  {
    assert TableOwned(mem, dir, owner, vpn / NPT) && TableOwned(mem, dir, owner, v / NPT);
    assert v == NPT * (v / NPT) + v % NPT && vpn == NPT * (vpn / NPT) + vpn % NPT;
  }

  /** The owners after entry vpn has become w: a user page's frame goes or comes with it. */
  function OwnerWith(mem: Memory, dir: nat, owner: Owner, vpn: nat, w: Word): Owner
    requires dir < |mem| && vpn < ALL_PAGES
  {
    if vpn >= USER_PAGES then owner
    else
      var pte := PteOf(mem, dir, vpn);
      var rest := if IsPresent(pte) then owner - {FrameOf(pte)} else owner;
      if IsPresent(w) then rest[FrameOf(w) := Page(vpn)] else rest
  }

  lemma PteKeeps(mem: Memory, dir: nat, owner: Owner, vpn: nat, w: Word)
    requires Inv(mem, dir, owner) && vpn < ALL_PAGES && HasTable(mem, dir, vpn)
    requires IsPresent(w) && vpn < USER_PAGES ==> FrameOf(w) !in owner && FrameOf(w) < |mem|
    ensures Inv(WithPte(mem, dir, vpn, w), dir, OwnerWith(mem, dir, owner, vpn, w))
  {
    var mem', owner' := WithPte(mem, dir, vpn, w), OwnerWith(mem, dir, owner, vpn, w);
    assert vpn < USER_PAGES ==> PageOwned(mem, dir, owner, vpn);
    PteSet(mem, dir, owner, vpn, w, vpn);
    forall v | 0 <= v < USER_PAGES ensures PageOwned(mem', dir, owner', v) {
      assert PageOwned(mem, dir, owner, v);
      PteSet(mem, dir, owner, vpn, w, v);
    }
    forall d | 0 <= d < NPT ensures TableOwned(mem', dir, owner', d) {
      assert TableOwned(mem, dir, owner, d);
    }
    forall f | f in owner' ensures RoleOk(mem', dir, f, owner'[f]) {
      assert f in owner ==> RoleOk(mem, dir, f, owner[f]);
      if f in owner && owner[f].Page? {
        PteSet(mem, dir, owner, vpn, w, owner[f].vpn);
      }
    }
  }
}
