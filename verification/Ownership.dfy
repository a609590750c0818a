/** Which inode owns which block: the invariant of the free map and the block references, and how
    allocating, linking, overwriting and freeing blocks keep it. */
module Ownership {
  import opened Blocks
  import opened Bits
  import opened Inodes

  /** The logical disk together with the one inode that is locked in memory; its in-memory copy is
      what counts, also while the copy on disk lags behind. */
  datatype View = View(disk: Disk, inum: nat, ip: Inode)

  /** A block's place: inode number and slot. */
  type Owners = map<nat, (nat, nat)>

  function DiskInode(sb: Super, disk: Disk, i: nat): (r: Inode)
    requires sb.Ok() && |disk| == sb.size && i < sb.ninodes
    ensures r.Ok()
  {
    DecodeInode(disk[sb.Iblock(i)], i % IPB)
  }

  function InodeOf(sb: Super, v: View, i: nat): (r: Inode)
    requires sb.Ok() && |v.disk| == sb.size && i < sb.ninodes && v.ip.Ok()
    ensures r.Ok()
  {
    if i == v.inum then v.ip else DiskInode(sb, v.disk, i)
  }

  /** The block number in slot s of inode x, 0 when there is none. */
  function RefOf(disk: Disk, x: Inode, s: nat): nat
    requires x.Ok() && s < SLOTS
  {
    if s <= NDIRECT then x.addrs[s]
    else if 0 < x.addrs[NDIRECT] < |disk| then WordAt(disk[x.addrs[NDIRECT]], s - NDIRECT - 1)
    else 0
  }

  predicate Marked(sb: Super, disk: Disk, b: nat)
    requires sb.Ok() && |disk| == sb.size && b < sb.size
  {
    BitAt(disk[sb.Bblock(b)], b % BPB)
  }

  ghost predicate OwnedOk(sb: Super, v: View, owner: Owners, r: nat)
    requires sb.Ok() && |v.disk| == sb.size && v.ip.Ok() && r in owner
  {
    var (i, s) := owner[r];
    && sb.datastart <= r < sb.size && Marked(sb, v.disk, r)
    && i < sb.ninodes && s < SLOTS && RefOf(v.disk, InodeOf(sb, v, i), s) == r
  }

  ghost predicate RefOwned(sb: Super, v: View, owner: Owners, i: nat, s: nat)
    requires sb.Ok() && |v.disk| == sb.size && v.ip.Ok() && i < sb.ninodes && s < SLOTS
  {
    var r := RefOf(v.disk, InodeOf(sb, v, i), s);
    r != 0 ==> r in owner && owner[r] == (i, s)
  }

  /** Every block an inode refers to is a marked data block that is referred to exactly once, and all
      blocks before the data area are marked. */
  ghost predicate Inv(sb: Super, v: View, owner: Owners) {
    && sb.Ok() && |v.disk| == sb.size && v.inum < sb.ninodes && v.ip.Ok()
    && (forall r :: r in owner ==> OwnedOk(sb, v, owner, r))
    && (forall i, s :: 0 <= i < sb.ninodes && 0 <= s < SLOTS ==> RefOwned(sb, v, owner, i, s))
    && (forall b :: 0 <= b < sb.datastart ==> Marked(sb, v.disk, b))
  }

  lemma InvBasics(sb: Super, v: View, owner: Owners)
    requires Inv(sb, v, owner)
    ensures sb.Ok() && |v.disk| == sb.size && v.inum < sb.ninodes && v.ip.Ok()
  {
  }

  /** Nothing that belongs to an inode other than v.inum has changed. */
  ghost predicate OthersUntouched(sb: Super, v: View, v': View, owner: Owners)
    requires sb.Ok() && |v.disk| == |v'.disk| == sb.size
  {
    && v'.inum == v.inum
    && (forall i :: 0 <= i < sb.ninodes && i != v.inum ==> DiskInode(sb, v'.disk, i) == DiskInode(sb, v.disk, i))
    && (forall r :: r in owner && owner[r].0 != v.inum && r < |v.disk| ==> v'.disk[r] == v.disk[r])
  }

  /** The references of another inode do not change when nothing of it changes. */
  lemma OtherRefsSame(sb: Super, v: View, v': View, owner: Owners, i: nat, s: nat)
    requires Inv(sb, v, owner) && |v'.disk| == sb.size && v'.ip.Ok() && OthersUntouched(sb, v, v', owner)
    requires i < sb.ninodes && i != v.inum && s < SLOTS
    ensures InodeOf(sb, v', i) == InodeOf(sb, v, i)
    ensures RefOf(v'.disk, InodeOf(sb, v', i), s) == RefOf(v.disk, InodeOf(sb, v, i), s)
  {
    assert RefOwned(sb, v, owner, i, NDIRECT);
  }

  /** No two places refer to the same block. */
  lemma ReferencedOnce(sb: Super, v: View, owner: Owners, i: nat, s: nat, j: nat, t: nat)
    requires Inv(sb, v, owner) && i < sb.ninodes && j < sb.ninodes && s < SLOTS && t < SLOTS
    requires RefOf(v.disk, InodeOf(sb, v, i), s) == RefOf(v.disk, InodeOf(sb, v, j), t) != 0
    ensures i == j && s == t
    ensures var r := RefOf(v.disk, InodeOf(sb, v, i), s); sb.datastart <= r < sb.size && Marked(sb, v.disk, r)
  {
    assert RefOwned(sb, v, owner, i, s) && RefOwned(sb, v, owner, j, t);
    assert OwnedOk(sb, v, owner, RefOf(v.disk, InodeOf(sb, v, i), s));
  }

  /** Give block r to slot s of the locked inode. */
  lemma GainKeeps(sb: Super, v: View, v': View, owner: Owners, s: nat, r: nat)
    requires Inv(sb, v, owner) && |v'.disk| == sb.size && v'.ip.Ok() && OthersUntouched(sb, v, v', owner)
    requires s < SLOTS && sb.datastart <= r < sb.size && r !in owner
    requires RefOf(v.disk, v.ip, s) == 0 && RefOf(v'.disk, v'.ip, s) == r
    requires forall t :: 0 <= t < SLOTS && t != s ==> RefOf(v'.disk, v'.ip, t) == RefOf(v.disk, v.ip, t)
    requires forall b :: 0 <= b < sb.size ==> Marked(sb, v'.disk, b) == (Marked(sb, v.disk, b) || b == r)
    ensures Inv(sb, v', owner[r := (v.inum, s)])
  {
    var owner' := owner[r := (v.inum, s)];
    forall i, t | 0 <= i < sb.ninodes && 0 <= t < SLOTS ensures RefOwned(sb, v', owner', i, t) {
      assert RefOwned(sb, v, owner, i, t);
      if i != v.inum {
        OtherRefsSame(sb, v, v', owner, i, t);
      }
    }
    forall q | q in owner' ensures OwnedOk(sb, v', owner', q) {
      if q != r {
        assert OwnedOk(sb, v, owner, q);
        if owner[q].0 != v.inum {
          OtherRefsSame(sb, v, v', owner, owner[q].0, owner[q].1);
        } else {
          assert owner[q].1 != s;
        }
      }
    }
  }

  /** Contents may change wherever no reference does. */
  lemma RewriteKeeps(sb: Super, v: View, v': View, owner: Owners)
    requires Inv(sb, v, owner) && |v'.disk| == sb.size && v'.ip.Ok() && OthersUntouched(sb, v, v', owner)
    requires forall t :: 0 <= t < SLOTS ==> RefOf(v'.disk, v'.ip, t) == RefOf(v.disk, v.ip, t)
    requires forall b :: 0 <= b < sb.size ==> Marked(sb, v'.disk, b) == Marked(sb, v.disk, b)
    ensures Inv(sb, v', owner)
  {
    forall i, t | 0 <= i < sb.ninodes && 0 <= t < SLOTS ensures RefOwned(sb, v', owner, i, t) {
      assert RefOwned(sb, v, owner, i, t);
      if i != v.inum {
        OtherRefsSame(sb, v, v', owner, i, t);
      }
    }
    forall q | q in owner ensures OwnedOk(sb, v', owner, q) {
      assert OwnedOk(sb, v, owner, q);
      if owner[q].0 != v.inum {
        OtherRefsSame(sb, v, v', owner, owner[q].0, owner[q].1);
      }
    }
  }

  /** Give up some blocks of the locked inode: their slots become empty, their marks may go. */
  lemma LoseKeeps(sb: Super, v: View, v': View, owner: Owners, lost: set<nat>)
    requires Inv(sb, v, owner) && |v'.disk| == sb.size && v'.ip.Ok() && OthersUntouched(sb, v, v', owner)
    requires forall r :: r in lost && r in owner ==> owner[r].0 == v.inum
    requires forall t :: 0 <= t < SLOTS ==>
               var was := RefOf(v.disk, v.ip, t); RefOf(v'.disk, v'.ip, t) == if was in lost then 0 else was
    requires forall b :: 0 <= b < sb.size && b !in lost ==> Marked(sb, v'.disk, b) == Marked(sb, v.disk, b)
    requires forall r :: r in lost ==> sb.datastart <= r
    ensures Inv(sb, v', owner - lost)
  {
    var owner' := owner - lost;
    forall i, t | 0 <= i < sb.ninodes && 0 <= t < SLOTS ensures RefOwned(sb, v', owner', i, t) {
      assert RefOwned(sb, v, owner, i, t);
      if i != v.inum {
        OtherRefsSame(sb, v, v', owner, i, t);
      }
    }
    forall q | q in owner' ensures OwnedOk(sb, v', owner', q) {
      assert OwnedOk(sb, v, owner, q);
      if owner[q].0 != v.inum {
        OtherRefsSame(sb, v, v', owner, owner[q].0, owner[q].1);
      }
    }
  }

  /** A file system without any file blocks, as mkfs begins with: the blocks up to the data area are marked. */
  lemma FreshDisk(sb: Super, disk: Disk, inum: nat)
    requires sb.Ok() && |disk| == sb.size && inum < sb.ninodes
    requires forall i, s :: 0 <= i < sb.ninodes && 0 <= s <= NDIRECT ==> DiskInode(sb, disk, i).addrs[s] == 0
    requires forall b :: 0 <= b < sb.datastart ==> Marked(sb, disk, b)
    ensures Inv(sb, View(disk, inum, DiskInode(sb, disk, inum)), map[])
  {
    var v := View(disk, inum, DiskInode(sb, disk, inum));
    forall i, s | 0 <= i < sb.ninodes && 0 <= s < SLOTS ensures RefOwned(sb, v, map[], i, s) {
      assert DiskInode(sb, disk, i).addrs[NDIRECT] == 0;
      assert s <= NDIRECT ==> DiskInode(sb, disk, i).addrs[s] == 0;
    }
  }

  /** The view through another inode, read from disk as ilock does. */
  function Locked(sb: Super, disk: Disk, j: nat): View
    requires sb.Ok() && |disk| == sb.size && j < sb.ninodes
  {
    View(disk, j, DiskInode(sb, disk, j))
  }

  /** When the inode in memory has reached the disk, locking another one keeps the invariant. */
  lemma RelockKeeps(sb: Super, v: View, owner: Owners, j: nat)
    requires Inv(sb, v, owner) && DiskInode(sb, v.disk, v.inum) == v.ip && j < sb.ninodes
    ensures Inv(sb, Locked(sb, v.disk, j), owner)
  {
    var u := Locked(sb, v.disk, j);
    forall i | 0 <= i < sb.ninodes ensures InodeOf(sb, u, i) == InodeOf(sb, v, i) {
    }
    forall i, s | 0 <= i < sb.ninodes && 0 <= s < SLOTS ensures RefOwned(sb, u, owner, i, s) {
      assert RefOwned(sb, v, owner, i, s);
    }
    forall r | r in owner ensures OwnedOk(sb, u, owner, r) {
      assert OwnedOk(sb, v, owner, r);
    }
  }
}
