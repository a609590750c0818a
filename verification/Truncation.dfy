/** itrunc on values: the blocks of an inode leave the free map one by one, in the order of the source. */
module Truncation {
  import opened Blocks
  import opened Bits
  import opened Inodes
  import opened Ownership
  import opened FileBlocks
  import opened FileBytes

  /** The position of a slot in itrunc's order: direct, entries of the indirect block, that block itself. */
  function Rank(s: nat): nat {
    if s < NDIRECT then s else if s == NDIRECT then MAXFILE else s - 1
  }

  /** The inode's blocks that have been freed once k positions are done. */
  ghost function FreedUpTo(o: Owners, inum: nat, k: nat): set<nat> {
    set r | r in o && o[r].0 == inum && Rank(o[r].1) < k
  }

  /** The marks of `lost` are gone, and neither data nor inodes have changed. */
  ghost predicate Unmarked(sb: Super, disk0: Disk, disk: Disk, lost: set<nat>) {
    && sb.Ok() && |disk0| == |disk| == sb.size
    && (forall b :: 0 <= b < sb.size ==> Marked(sb, disk, b) == (Marked(sb, disk0, b) && b !in lost))
    && (forall r :: sb.datastart <= r < sb.size ==> disk[r] == disk0[r])
    && (forall i :: 0 <= i < sb.ninodes ==> DiskInode(sb, disk, i) == DiskInode(sb, disk0, i))
  }

  /** bfree writes neither inodes nor data. */
  lemma UnmarkedElsewhere(sb: Super, disk: Disk, r: nat)
    requires sb.Ok() && |disk| == sb.size && r < sb.size
    ensures forall n :: sb.datastart <= n < sb.size ==> WithoutMark(sb, disk, r)[n] == disk[n]
    ensures forall i :: 0 <= i < sb.ninodes ==> DiskInode(sb, WithoutMark(sb, disk, r), i) == DiskInode(sb, disk, i)
  {
    hide DecodeInode, ClearBit;
  }

  lemma UnmarkOne(sb: Super, disk0: Disk, disk: Disk, lost: set<nat>, r: nat)
    requires Unmarked(sb, disk0, disk, lost) && r < sb.size
    ensures Unmarked(sb, disk0, WithoutMark(sb, disk, r), lost + {r})
  {
    hide Marked, WithoutMark, DiskInode;
    var d := WithoutMark(sb, disk, r);
    UnmarkedElsewhere(sb, disk, r);
    forall b | 0 <= b < sb.size ensures Marked(sb, d, b) == (Marked(sb, disk0, b) && b !in lost + {r}) {
      MarkStored(sb, disk, r, b);
    }
  }

  /** The block in slot s is still marked when its turn comes, and is then the only one to be freed. */
  lemma NextFreed(sb: Super, v: View, o: Owners, disk: Disk, s: nat)
    requires Inv(sb, v, o) && s < SLOTS && Unmarked(sb, v.disk, disk, FreedUpTo(o, v.inum, Rank(s)))
    ensures var r := RefOf(v.disk, v.ip, s);
            && (r == 0 ==> FreedUpTo(o, v.inum, Rank(s) + 1) == FreedUpTo(o, v.inum, Rank(s)))
            && (r != 0 ==>
                  && sb.datastart <= r < sb.size && Marked(sb, disk, r)
                  && FreedUpTo(o, v.inum, Rank(s) + 1) == FreedUpTo(o, v.inum, Rank(s)) + {r})
  {
    hide BitAt, WordAt, DecodeInode;
    OwnRefs(sb, v, o, s);
    forall q | q in o && o[q].0 == v.inum && Rank(o[q].1) == Rank(s) ensures q == RefOf(v.disk, v.ip, s) {
      assert OwnedOk(sb, v, o, q);
      assert o[q].1 == s;
    }
  }

  /** Without an indirect block the direct blocks are all there are. */
  lemma NoIndirectBlocks(sb: Super, v: View, o: Owners)
    requires Inv(sb, v, o) && v.ip.addrs[NDIRECT] == 0
    ensures FreedUpTo(o, v.inum, NDIRECT) == FreedUpTo(o, v.inum, SLOTS)
  {
    forall q | q in o && o[q].0 == v.inum ensures Rank(o[q].1) < NDIRECT {
      assert OwnedOk(sb, v, o, q);
    }
  }

  function NoAddrs(): (a: seq<Word>)
    ensures |a| == NDIRECT + 1 && forall k :: 0 <= k <= NDIRECT ==> a[k] == 0
  {
    seq<Word>(NDIRECT + 1, _ => 0)
  }

  /** v' is v with the file emptied: exactly the blocks it owned are free again. */
  ghost predicate Emptied(sb: Super, v: View, o: Owners, v': View, o': Owners)
    requires Inv(sb, v, o)
  {
    && Inv(sb, v', o') && OthersUntouched(sb, v, v', o) && OwnersKept(o, o', v.inum)
    && v'.ip == v.ip.(addrs := NoAddrs(), size := 0) && DiskInode(sb, v'.disk, v.inum) == v'.ip
    && (forall b :: 0 <= b < sb.size ==>
          Marked(sb, v'.disk, b) == (Marked(sb, v.disk, b) && !(b in o && o[b].0 == v.inum)))
  }

  /** All blocks freed and all addresses cleared: the invariant holds again. */
  lemma Detached(sb: Super, v: View, o: Owners, disk: Disk)
    requires Inv(sb, v, o) && Unmarked(sb, v.disk, disk, FreedUpTo(o, v.inum, SLOTS))
    ensures var v1 := View(disk, v.inum, v.ip.(addrs := NoAddrs(), size := 0));
            Inv(sb, v1, o - FreedUpTo(o, v.inum, SLOTS)) && OthersUntouched(sb, v, v1, o)
    ensures forall r :: r in o && o[r].0 == v.inum ==> r in FreedUpTo(o, v.inum, SLOTS)
  {
    hide BitAt, WordAt, DecodeInode;
    var lost, v1 := FreedUpTo(o, v.inum, SLOTS), View(disk, v.inum, v.ip.(addrs := NoAddrs(), size := 0));
    forall r | r in o ensures sb.datastart <= r < sb.size && (o[r].0 == v.inum ==> r in lost) {
      assert OwnedOk(sb, v, o, r);
    }
    forall t | 0 <= t < SLOTS
      ensures var was := RefOf(v.disk, v.ip, t); RefOf(v1.disk, v1.ip, t) == if was in lost then 0 else was
    {
      OwnRefs(sb, v, o, t);
    }
    LoseKeeps(sb, v, v1, o, lost);
  }

  lemma UpdateKeepsMarks(sb: Super, v: View)
    requires sb.Ok() && |v.disk| == sb.size && v.inum < sb.ninodes && v.ip.Ok()
    ensures forall b :: 0 <= b < sb.size ==> Marked(sb, Updated(sb, v).disk, b) == Marked(sb, v.disk, b)
  {
  }

  lemma UpdatedInode(sb: Super, v: View)
    requires sb.Ok() && |v.disk| == sb.size && v.inum < sb.ninodes && v.ip.Ok()
    ensures Updated(sb, v).ip == v.ip && Updated(sb, v).inum == v.inum
  {
  }

  lemma FreedOwners(o: Owners, inum: nat)
    ensures OwnersKept(o, o - FreedUpTo(o, inum, SLOTS), inum)
    ensures forall r :: r in FreedUpTo(o, inum, SLOTS) ==> r in o && o[r].0 == inum
  {
  }

  lemma EmptiedMarks(sb: Super, v: View, o: Owners, disk: Disk, v': View)
    requires Unmarked(sb, v.disk, disk, FreedUpTo(o, v.inum, SLOTS)) && |v'.disk| == sb.size
    requires forall r :: r in o && o[r].0 == v.inum ==> r in FreedUpTo(o, v.inum, SLOTS)
    requires forall b :: 0 <= b < sb.size ==> Marked(sb, v'.disk, b) == Marked(sb, disk, b)
    ensures forall b :: 0 <= b < sb.size ==>
              Marked(sb, v'.disk, b) == (Marked(sb, v.disk, b) && !(b in o && o[b].0 == v.inum))
  {
    hide Marked, DiskInode;
  }

  lemma TruncationEmpties(sb: Super, v: View, o: Owners, disk: Disk)
    requires Inv(sb, v, o) && Unmarked(sb, v.disk, disk, FreedUpTo(o, v.inum, SLOTS))
    ensures var v1 := View(disk, v.inum, v.ip.(addrs := NoAddrs(), size := 0));
            Emptied(sb, v, o, Updated(sb, v1), o - FreedUpTo(o, v.inum, SLOTS))
  {
    var lost, v1 := FreedUpTo(o, v.inum, SLOTS), View(disk, v.inum, v.ip.(addrs := NoAddrs(), size := 0));
    InvBasics(sb, v, o);
    hide Inv, Marked, DiskInode, NoAddrs, Unmarked, OthersUntouched, OwnersKept, FreedUpTo, Updated;
    Detached(sb, v, o, disk);
    InvBasics(sb, v1, o - lost);
    FreedOwners(o, v.inum);
    UpdateKeeps(sb, v1, o - lost);
    InvBasics(sb, Updated(sb, v1), o - lost);
    UpdateKeepsMarks(sb, v1);
    UpdatedInode(sb, v1);
    EmptiedMarks(sb, v, o, disk, Updated(sb, v1));
    UntouchedTwice(sb, v, v1, Updated(sb, v1), o, o - lost);
  }
}
