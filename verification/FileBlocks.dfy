/** The steps of balloc, bmap, writei and iupdate on values: what each does to the free map, to the
    ownership of blocks and to the file seen as a sequence of blocks. */
module FileBlocks {
  import opened Blocks
  import opened Bits
  import opened Inodes
  import opened Ownership

  // ----- free map

  function WithMark(sb: Super, disk: Disk, b: nat): (r: Disk)
    requires sb.Ok() && |disk| == sb.size && b < sb.size
    ensures |r| == |disk|
  {
    disk[sb.Bblock(b) := SetBit(disk[sb.Bblock(b)], b % BPB)]
  }

  function WithoutMark(sb: Super, disk: Disk, b: nat): (r: Disk)
    requires sb.Ok() && |disk| == sb.size && b < sb.size
    ensures |r| == |disk|
  {
    disk[sb.Bblock(b) := ClearBit(disk[sb.Bblock(b)], b % BPB)]
  }

  /** No free block is left. */
  ghost predicate Full(sb: Super, disk: Disk) {
    sb.Ok() && |disk| == sb.size && forall b :: 0 <= b < sb.size ==> Marked(sb, disk, b)
  }

  lemma MarkStored(sb: Super, disk: Disk, b: nat, c: nat)
    requires sb.Ok() && |disk| == sb.size && b < sb.size && c < sb.size
    ensures Marked(sb, WithMark(sb, disk, b), c) == (c == b || Marked(sb, disk, c))
    ensures Marked(sb, WithoutMark(sb, disk, b), c) == (c != b && Marked(sb, disk, c))
  {
    BitAtStored(disk[sb.Bblock(b)], b % BPB, c % BPB);
  }

  /** Writes to data blocks do not touch the free map or the inodes. */
  lemma DataWriteKeepsMeta(sb: Super, disk: Disk, r: nat, data: Block)
    requires sb.Ok() && |disk| == sb.size && sb.datastart <= r < sb.size
    ensures forall c :: 0 <= c < sb.size ==> Marked(sb, disk[r := data], c) == Marked(sb, disk, c)
    ensures forall i :: 0 <= i < sb.ninodes ==> DiskInode(sb, disk[r := data], i) == DiskInode(sb, disk, i)
  {
  }

  /** The disk after balloc has handed out block r. */
  function Allocated(sb: Super, disk: Disk, r: nat): (d: Disk)
    requires sb.Ok() && |disk| == sb.size && r < sb.size
    ensures |d| == |disk|
  {
    WithMark(sb, disk, r)[r := ZeroBlock()]
  }

  lemma AllocationMarks(sb: Super, disk: Disk, r: nat, c: nat)
    requires sb.Ok() && |disk| == sb.size && sb.datastart <= r < sb.size && c < sb.size
    ensures Marked(sb, Allocated(sb, disk, r), c) == (c == r || Marked(sb, disk, c))
  {
    hide BitAt, SetBit;
    MarkStored(sb, disk, r, c);
  }

  lemma AllocationEffect(sb: Super, disk: Disk, r: nat)
    requires sb.Ok() && |disk| == sb.size && sb.datastart <= r < sb.size
    ensures forall c :: 0 <= c < sb.size ==> Marked(sb, Allocated(sb, disk, r), c) == (c == r || Marked(sb, disk, c))
    ensures forall i :: 0 <= i < sb.ninodes ==> DiskInode(sb, Allocated(sb, disk, r), i) == DiskInode(sb, disk, i)
    ensures forall n :: sb.datastart <= n < sb.size && n != r ==> Allocated(sb, disk, r)[n] == disk[n]
  {
    hide Marked, DecodeInode, SetBit;
    forall c | 0 <= c < sb.size ensures Marked(sb, Allocated(sb, disk, r), c) == (c == r || Marked(sb, disk, c)) {
      AllocationMarks(sb, disk, r, c);
    }
  }

  /** Only the blocks in `logged` differ from `base`, and none of them lies in or before the log. */
  ghost predicate Covered(sb: Super, base: Disk, disk: Disk, logged: set<nat>) {
    && |base| == |disk| && (forall b :: b in logged ==> sb.inodestart <= b < |disk|)
    && forall b :: 0 <= b < |disk| && b !in logged ==> disk[b] == base[b]
  }

  lemma AllocationCovered(sb: Super, base: Disk, disk: Disk, r: nat, logged: set<nat>, logged': set<nat>)
    requires sb.Ok() && |disk| == sb.size && sb.datastart <= r < sb.size
    requires Covered(sb, base, disk, logged) && logged' == logged + {r, sb.Bblock(r)}
    ensures Covered(sb, base, Allocated(sb, disk, r), logged')
  {
  }

  lemma StoreCovered(sb: Super, base: Disk, disk: Disk, n: nat, data: Block, logged: set<nat>, logged': set<nat>)
    requires sb.inodestart <= n < |disk| && Covered(sb, base, disk, logged) && logged' == logged + {n}
    ensures Covered(sb, base, disk[n := data], logged')
  {
  }

  // ----- the file as blocks

  /** The slot of the bn-th block of a file; slot NDIRECT is the indirect block itself. */
  function SlotOf(bn: nat): nat {
    if bn < NDIRECT then bn else bn + 1
  }

  function RefAt(v: View, bn: nat): nat
    requires v.ip.Ok() && bn < MAXFILE
  {
    RefOf(v.disk, v.ip, SlotOf(bn))
  }

  predicate Present(v: View, bn: nat)
    requires v.ip.Ok() && bn < MAXFILE
  {
    0 < RefAt(v, bn) < |v.disk|
  }

  /** Contents of the bn-th block of the locked file; a hole reads as zeros. */
  function BlockOf(v: View, bn: nat): Block
    requires v.ip.Ok() && bn < MAXFILE
  {
    if Present(v, bn) then v.disk[RefAt(v, bn)] else ZeroBlock()
  }

  lemma OwnRefs(sb: Super, v: View, owner: Owners, s: nat)
    requires Inv(sb, v, owner) && s < SLOTS
    ensures var r := RefOf(v.disk, v.ip, s);
            r != 0 ==> sb.datastart <= r < sb.size && r in owner && owner[r] == (v.inum, s) && Marked(sb, v.disk, r)
  {
    assert RefOwned(sb, v, owner, v.inum, s);
    var r := RefOf(v.disk, v.ip, s);
    if r != 0 {
      assert OwnedOk(sb, v, owner, r);
    }
  }

  /** The locked inode after block r, fresh from balloc, is put into slot s of its addrs. */
  function Linked(sb: Super, v: View, s: nat, r: Word): View
    requires sb.Ok() && |v.disk| == sb.size && r < sb.size && v.ip.Ok() && s <= NDIRECT
  {
    View(Allocated(sb, v.disk, r), v.inum, v.ip.(addrs := v.ip.addrs[s := r]))
  }

  lemma LinkedRefs(sb: Super, v: View, owner: Owners, s: nat, r: Word, t: nat)
    requires Inv(sb, v, owner) && s <= NDIRECT && v.ip.addrs[s] == 0 && sb.datastart <= r < sb.size
    requires !Marked(sb, v.disk, r)
    requires t < SLOTS
    ensures var v' := Linked(sb, v, s, r); RefOf(v'.disk, v'.ip, t) == if t == s then r else RefOf(v.disk, v.ip, t)
    ensures RefOf(v.disk, v.ip, t) != r
  {
    hide BitAt, DecodeInode, WordAt, SetWord;
    AllocationEffect(sb, v.disk, r);
    OwnRefs(sb, v, owner, t);
    OwnRefs(sb, v, owner, NDIRECT);
    if s == NDIRECT && t > NDIRECT {
      ZeroWords(t - NDIRECT - 1);
    }
  }

  lemma FreshIsUnowned(sb: Super, v: View, owner: Owners, r: nat)
    requires Inv(sb, v, owner) && r < sb.size && !Marked(sb, v.disk, r)
    ensures r !in owner && sb.datastart <= r
  {
    assert r in owner ==> OwnedOk(sb, v, owner, r);
  }

  lemma AllocationTouchesNoOther(sb: Super, v: View, v': View, owner: Owners, r: nat)
    requires Inv(sb, v, owner) && r < sb.size && !Marked(sb, v.disk, r)
    requires v'.disk == Allocated(sb, v.disk, r) && v'.inum == v.inum
    ensures OthersUntouched(sb, v, v', owner)
  {
    FreshIsUnowned(sb, v, owner, r);
    AllocationEffect(sb, v.disk, r);
    forall q | q in owner && owner[q].0 != v.inum && q < |v.disk| ensures v'.disk[q] == v.disk[q] {
      assert OwnedOk(sb, v, owner, q);
    }
  }

  /** bmap's direct case, and its allocation of the indirect block. */
  lemma LinkKeeps(sb: Super, v: View, owner: Owners, s: nat, r: Word)
    requires Inv(sb, v, owner) && s <= NDIRECT && v.ip.addrs[s] == 0 && r < sb.size && !Marked(sb, v.disk, r)
    ensures sb.datastart <= r && Inv(sb, Linked(sb, v, s, r), owner[r := (v.inum, s)])
    ensures OthersUntouched(sb, v, Linked(sb, v, s, r), owner)
  {
    hide BitAt, DecodeInode, WordAt, SetWord;
    var v' := Linked(sb, v, s, r);
    FreshIsUnowned(sb, v, owner, r);
    AllocationEffect(sb, v.disk, r);
    AllocationTouchesNoOther(sb, v, v', owner, r);
    LinkedRefs(sb, v, owner, s, r, s);
    forall t | 0 <= t < SLOTS && t != s ensures RefOf(v'.disk, v'.ip, t) == RefOf(v.disk, v.ip, t) {
      LinkedRefs(sb, v, owner, s, r, t);
    }
    GainKeeps(sb, v, v', owner, s, r);
  }

  /** Linking a zeroed block changes no file contents. */
  lemma LinkKeepsBlocks(sb: Super, v: View, owner: Owners, s: nat, r: Word, bn: nat)
    requires Inv(sb, v, owner) && s <= NDIRECT && v.ip.addrs[s] == 0 && sb.datastart <= r < sb.size
    requires !Marked(sb, v.disk, r)
    requires bn < MAXFILE
    ensures var v' := Linked(sb, v, s, r);
            BlockOf(v', bn) == BlockOf(v, bn) && Present(v', bn) == (Present(v, bn) || SlotOf(bn) == s)
  {
    hide BitAt, DecodeInode, WordAt, SetWord;
    LinkedRefs(sb, v, owner, s, r, SlotOf(bn));
    OwnRefs(sb, v, owner, SlotOf(bn));
    AllocationEffect(sb, v.disk, r);
  }

  /** The locked inode after block r, fresh from balloc, is entered in its indirect block. */
  function Entered(sb: Super, v: View, j: nat, r: Word): (v': View)
    requires sb.Ok() && |v.disk| == sb.size && r < sb.size && v.ip.Ok() && j < NINDIRECT
    requires v.ip.addrs[NDIRECT] < sb.size
    ensures |v'.disk| == |v.disk| && v'.ip == v.ip && v'.inum == v.inum
  {
    var ind, d := v.ip.addrs[NDIRECT], Allocated(sb, v.disk, r);
    View(d[ind := SetWord(d[ind], j, r)], v.inum, v.ip)
  }

  lemma EnteredRefs(sb: Super, v: View, owner: Owners, j: nat, r: Word, t: nat)
    requires Inv(sb, v, owner) && j < NINDIRECT && 0 < v.ip.addrs[NDIRECT] < sb.size && t < SLOTS
    requires RefOf(v.disk, v.ip, NDIRECT + 1 + j) == 0 && sb.datastart <= r < sb.size && !Marked(sb, v.disk, r)
    ensures var v' := Entered(sb, v, j, r);
            RefOf(v'.disk, v'.ip, t) == if t == NDIRECT + 1 + j then r else RefOf(v.disk, v.ip, t)
    ensures RefOf(v.disk, v.ip, t) != r
  {
    hide BitAt, DecodeInode, WordAt, SetWord;
    AllocationEffect(sb, v.disk, r);
    OwnRefs(sb, v, owner, t);
    OwnRefs(sb, v, owner, NDIRECT);
    if t > NDIRECT {
      WordStored(v.disk[v.ip.addrs[NDIRECT]], j, r, t - NDIRECT - 1);
    }
  }

  /** bmap's indirect case. */
  lemma EnterKeeps(sb: Super, v: View, owner: Owners, j: nat, r: Word)
    requires Inv(sb, v, owner) && j < NINDIRECT && 0 < v.ip.addrs[NDIRECT] < sb.size
    requires RefOf(v.disk, v.ip, NDIRECT + 1 + j) == 0 && r < sb.size && !Marked(sb, v.disk, r)
    ensures sb.datastart <= r && Inv(sb, Entered(sb, v, j, r), owner[r := (v.inum, NDIRECT + 1 + j)])
    ensures OthersUntouched(sb, v, Entered(sb, v, j, r), owner)
    ensures DiskInode(sb, Entered(sb, v, j, r).disk, v.inum) == DiskInode(sb, v.disk, v.inum)
  {
    hide BitAt, DecodeInode, WordAt, SetWord;
    var v', s := Entered(sb, v, j, r), NDIRECT + 1 + j;
    FreshIsUnowned(sb, v, owner, r);
    OwnRefs(sb, v, owner, NDIRECT);
    AllocationEffect(sb, v.disk, r);
    AllocationTouchesNoOther(sb, v, View(Allocated(sb, v.disk, r), v.inum, v.ip), owner, r);
    DataWriteKeepsMeta(sb, Allocated(sb, v.disk, r), v.ip.addrs[NDIRECT], v'.disk[v.ip.addrs[NDIRECT]]);
    EnteredRefs(sb, v, owner, j, r, s);
    forall t | 0 <= t < SLOTS && t != s ensures RefOf(v'.disk, v'.ip, t) == RefOf(v.disk, v.ip, t) {
      EnteredRefs(sb, v, owner, j, r, t);
    }
    GainKeeps(sb, v, v', owner, s, r);
  }

  lemma EnterCovered(sb: Super, v: View, owner: Owners, base: Disk, r: Word, j: nat, logged: set<nat>)
    requires Inv(sb, v, owner) && j < NINDIRECT && 0 < v.ip.addrs[NDIRECT] < sb.size && sb.datastart <= r < sb.size
    requires Covered(sb, base, v.disk, logged)
    ensures Covered(sb, base, Entered(sb, v, j, r).disk, logged + {r, sb.Bblock(r), v.ip.addrs[NDIRECT]})
  {
    hide BitAt, DecodeInode, WordAt, SetWord, Allocated, Covered, OwnedOk, RefOwned;
    var ind, logged1 := v.ip.addrs[NDIRECT], logged + {r, sb.Bblock(r)};
    OwnRefs(sb, v, owner, NDIRECT);
    AllocationCovered(sb, base, v.disk, r, logged, logged1);
    assert logged1 + {ind} == logged + {r, sb.Bblock(r), ind};
    StoreCovered(sb, base, Allocated(sb, v.disk, r), ind, Entered(sb, v, j, r).disk[ind], logged1, logged1 + {ind});
  }

  lemma EnteredData(sb: Super, v: View, j: nat, r: Word, n: nat)
    requires sb.Ok() && |v.disk| == sb.size && sb.datastart <= r < sb.size && v.ip.Ok() && j < NINDIRECT
    requires v.ip.addrs[NDIRECT] < sb.size && sb.datastart <= n < sb.size && n != v.ip.addrs[NDIRECT]
    ensures Entered(sb, v, j, r).disk[n] == if n == r then ZeroBlock() else v.disk[n]
  {
    hide Marked, DecodeInode, SetBit, SetWord;
    AllocationEffect(sb, v.disk, r);
  }

  lemma EnterKeepsBlocks(sb: Super, v: View, owner: Owners, j: nat, r: Word, bn: nat)
    requires Inv(sb, v, owner) && j < NINDIRECT && 0 < v.ip.addrs[NDIRECT] < sb.size && bn < MAXFILE
    requires RefOf(v.disk, v.ip, NDIRECT + 1 + j) == 0 && sb.datastart <= r < sb.size && !Marked(sb, v.disk, r)
    ensures var v' := Entered(sb, v, j, r);
            BlockOf(v', bn) == BlockOf(v, bn) && Present(v', bn) == (Present(v, bn) || bn == NDIRECT + j)
  {
    hide Inv, Entered, RefOf, Marked;
    InvBasics(sb, v, owner);
    EnteredRefs(sb, v, owner, j, r, SlotOf(bn));
    OwnRefs(sb, v, owner, SlotOf(bn));
    IndirectIsNoData(sb, v, owner, bn);
    var n := RefAt(v, bn);
    if n != 0 {
      EnteredData(sb, v, j, r, n);
    }
    IndirectIsMarked(sb, v, owner, r);
    EnteredData(sb, v, j, r, r);
  }

  /** The indirect block is not one of the file's data blocks, */
  lemma IndirectIsNoData(sb: Super, v: View, owner: Owners, bn: nat)
    requires Inv(sb, v, owner) && bn < MAXFILE
    ensures RefAt(v, bn) != 0 ==> RefAt(v, bn) != v.ip.addrs[NDIRECT]
  {
    hide BitAt, DecodeInode, WordAt;
    OwnRefs(sb, v, owner, SlotOf(bn));
    OwnRefs(sb, v, owner, NDIRECT);
  }

  /** and it is marked. */
  lemma IndirectIsMarked(sb: Super, v: View, owner: Owners, r: nat)
    requires Inv(sb, v, owner) && r < sb.size && !Marked(sb, v.disk, r)
    ensures r != v.ip.addrs[NDIRECT] || r == 0
  {
    hide BitAt, DecodeInode, WordAt;
    OwnRefs(sb, v, owner, NDIRECT);
  }

  /** writei stores into one block of the file. */
  function Stored(v: View, bn: nat, data: Block): (v': View)
    requires v.ip.Ok() && bn < MAXFILE && RefAt(v, bn) < |v.disk|
    ensures |v'.disk| == |v.disk| && v'.ip == v.ip && v'.inum == v.inum
  {
    View(v.disk[RefAt(v, bn) := data], v.inum, v.ip)
  }

  lemma StoredRefs(sb: Super, v: View, owner: Owners, bn: nat, data: Block, t: nat)
    requires Inv(sb, v, owner) && bn < MAXFILE && Present(v, bn) && t < SLOTS
    ensures RefOf(Stored(v, bn, data).disk, v.ip, t) == RefOf(v.disk, v.ip, t)
  {
    OwnRefs(sb, v, owner, SlotOf(bn));
    OwnRefs(sb, v, owner, NDIRECT);
  }

  lemma StoreKeeps(sb: Super, v: View, owner: Owners, bn: nat, data: Block)
    requires Inv(sb, v, owner) && bn < MAXFILE && Present(v, bn)
    ensures Inv(sb, Stored(v, bn, data), owner) && OthersUntouched(sb, v, Stored(v, bn, data), owner)
    ensures DiskInode(sb, Stored(v, bn, data).disk, v.inum) == DiskInode(sb, v.disk, v.inum)
  {
    var v' := Stored(v, bn, data);
    OwnRefs(sb, v, owner, SlotOf(bn));
    DataWriteKeepsMeta(sb, v.disk, RefAt(v, bn), data);
    forall t | 0 <= t < SLOTS ensures RefOf(v'.disk, v'.ip, t) == RefOf(v.disk, v.ip, t) {
      StoredRefs(sb, v, owner, bn, data, t);
    }
    RewriteKeeps(sb, v, v', owner);
  }

  /** A store changes the block it is aimed at and no other block of the file. */
  lemma StoreSetsBlock(sb: Super, v: View, owner: Owners, bn: nat, data: Block, k: nat)
    requires Inv(sb, v, owner) && bn < MAXFILE && Present(v, bn) && k < MAXFILE
    ensures var v' := Stored(v, bn, data);
            Present(v', k) == Present(v, k) && BlockOf(v', k) == if k == bn then data else BlockOf(v, k)
  {
    StoredRefs(sb, v, owner, bn, data, SlotOf(k));
    OwnRefs(sb, v, owner, SlotOf(bn));
    OwnRefs(sb, v, owner, SlotOf(k));
  }

  /** iupdate: the in-memory inode, possibly with a new size, reaches its block. */
  function Updated(sb: Super, v: View): (v': View)
    requires sb.Ok() && |v.disk| == sb.size && v.inum < sb.ninodes && v.ip.Ok()
    ensures |v'.disk| == |v.disk| && v'.ip == v.ip && v'.inum == v.inum
  {
    View(v.disk[sb.Iblock(v.inum) := EncodeInode(v.disk[sb.Iblock(v.inum)], v.inum % IPB, v.ip)], v.inum, v.ip)
  }

  lemma UpdatedInodes(sb: Super, v: View, i: nat)
    requires sb.Ok() && |v.disk| == sb.size && v.inum < sb.ninodes && v.ip.Ok() && i < sb.ninodes
    ensures DiskInode(sb, Updated(sb, v).disk, i) == if i == v.inum then v.ip else DiskInode(sb, v.disk, i)
  {
    hide DecodeInode, EncodeInode;
    InodeStored(v.disk[sb.Iblock(v.inum)], v.inum % IPB, v.ip, i % IPB);
  }

  /** iupdate writes neither the free map nor data. */
  lemma UpdatedElsewhere(sb: Super, v: View)
    requires sb.Ok() && |v.disk| == sb.size && v.inum < sb.ninodes && v.ip.Ok()
    ensures Updated(sb, v).ip == v.ip && Updated(sb, v).inum == v.inum && |Updated(sb, v).disk| == |v.disk|
    ensures forall b :: 0 <= b < sb.size ==> Marked(sb, Updated(sb, v).disk, b) == Marked(sb, v.disk, b)
    ensures forall n :: sb.datastart <= n < sb.size ==> Updated(sb, v).disk[n] == v.disk[n]
  {
    hide BitAt, EncodeInode;
  }

  lemma UpdatedRefs(sb: Super, v: View, owner: Owners, t: nat)
    requires Inv(sb, v, owner) && t < SLOTS
    ensures Updated(sb, v).ip.Ok() && RefOf(Updated(sb, v).disk, Updated(sb, v).ip, t) == RefOf(v.disk, v.ip, t)
  {
    hide Updated, WordAt, Marked, DecodeInode;
    UpdatedElsewhere(sb, v);
    OwnRefs(sb, v, owner, NDIRECT);
  }

  lemma OwnedAreData(sb: Super, v: View, owner: Owners, r: nat)
    requires Inv(sb, v, owner) && r in owner
    ensures sb.datastart <= r < sb.size
  {
    assert OwnedOk(sb, v, owner, r);
  }

  lemma UpdateKeeps(sb: Super, v: View, owner: Owners)
    requires Inv(sb, v, owner)
    ensures Inv(sb, Updated(sb, v), owner) && OthersUntouched(sb, v, Updated(sb, v), owner)
    ensures DiskInode(sb, Updated(sb, v).disk, v.inum) == v.ip
  {
    hide Inv, Updated, DiskInode, RefOf, Marked;
    InvBasics(sb, v, owner);
    var v' := Updated(sb, v);
    UpdatedElsewhere(sb, v);
    forall i | 0 <= i < sb.ninodes
      ensures DiskInode(sb, v'.disk, i) == if i == v.inum then v.ip else DiskInode(sb, v.disk, i)
    {
      UpdatedInodes(sb, v, i);
    }
    forall r | r in owner && r < |v.disk| ensures v'.disk[r] == v.disk[r] {
      OwnedAreData(sb, v, owner, r);
    }
    forall t | 0 <= t < SLOTS ensures RefOf(v'.disk, v'.ip, t) == RefOf(v.disk, v.ip, t) {
      UpdatedRefs(sb, v, owner, t);
    }
    RewriteKeeps(sb, v, v', owner);
  }

  lemma UpdateKeepsBlocks(sb: Super, v: View, owner: Owners, bn: nat)
    requires Inv(sb, v, owner) && bn < MAXFILE
    ensures BlockOf(Updated(sb, v), bn) == BlockOf(v, bn) && Present(Updated(sb, v), bn) == Present(v, bn)
  {
    hide Inv, Updated, RefOf, Marked;
    InvBasics(sb, v, owner);
    UpdatedElsewhere(sb, v);
    UpdatedRefs(sb, v, owner, SlotOf(bn));
    OwnRefs(sb, v, owner, SlotOf(bn));
  }

  /** The in-memory size is not part of what the invariant is about. */
  lemma ResizeKeeps(sb: Super, v: View, owner: Owners, size: Word)
    requires Inv(sb, v, owner)
    ensures Inv(sb, v.(ip := v.ip.(size := size)), owner)
    ensures forall bn :: 0 <= bn < MAXFILE ==> var v' := v.(ip := v.ip.(size := size));
              BlockOf(v', bn) == BlockOf(v, bn) && Present(v', bn) == Present(v, bn)
  {
    RewriteKeeps(sb, v, v.(ip := v.ip.(size := size)), owner);
  }
}
