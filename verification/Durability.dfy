/** What a crash can do to a file: the file system's transactions seen through the log. */
module Durability {
  import opened Params
  import opened Blocks
  import opened Bits
  import opened Inodes
  import opened Ownership
  import opened FileBlocks
  import opened FileBytes
  import opened Recovery
  import opened FileWrite
  import opened Steps
  import opened Space
  import opened Wrappers
  import Log
  import BufferCache
  import Counting

  /** Two disks that agree outside the log hold the same file system. */
  lemma HomeIsFileSystem(sb: Super, v: View, owner: Owners, x: Disk, l: Layout)
    requires Inv(sb, v, owner) && DiskInode(sb, v.disk, v.inum) == v.ip && SameHome(x, v.disk, l)
    requires l.start + l.size <= sb.inodestart
    ensures var u := Locked(sb, x, v.inum); u.ip == v.ip && Inv(sb, u, owner) && SameBlocks(v, u)
  {
    var u := Locked(sb, x, v.inum);
    assert x[sb.Iblock(v.inum)] == v.disk[sb.Iblock(v.inum)];
    HomeRefs(sb, v, owner, x, l);
    hide BitAt, DecodeInode, WordAt;
    HomeOthers(sb, v, owner, x, l);
    RewriteKeeps(sb, v, u, owner);
    forall bn | 0 <= bn < MAXFILE ensures BlockOf(u, bn) == BlockOf(v, bn) && Present(u, bn) == Present(v, bn) {
      OwnRefs(sb, v, owner, SlotOf(bn));
    }
  }

  lemma HomeRefs(sb: Super, v: View, owner: Owners, x: Disk, l: Layout)
    requires Inv(sb, v, owner) && SameHome(x, v.disk, l) && l.start + l.size <= sb.inodestart
    ensures forall t :: 0 <= t < SLOTS ==> RefOf(x, v.ip, t) == RefOf(v.disk, v.ip, t)
    ensures forall b :: 0 <= b < sb.size ==> Marked(sb, x, b) == Marked(sb, v.disk, b)
  {
    hide BitAt, DecodeInode, WordAt;
    OwnRefs(sb, v, owner, NDIRECT);
  }

  lemma HomeOthers(sb: Super, v: View, owner: Owners, x: Disk, l: Layout)
    requires Inv(sb, v, owner) && SameHome(x, v.disk, l) && l.start + l.size <= sb.inodestart
    ensures OthersUntouched(sb, v, Locked(sb, x, v.inum), owner)
  {
    hide BitAt, DecodeInode, WordAt;
    forall r | r in owner && r < |v.disk| ensures x[r] == v.disk[r] {
      assert OwnedOk(sb, v, owner, r);
    }
  }

  /** Installing the logged blocks over the old file system makes the new one. */
  lemma InstalledHome(sb: Super, d: Disk, base: Disk, disk: Disk, l: Layout, bs: seq<nat>)
    requires SameHome(d, base, l) && Covered(sb, base, disk, Log.Members(bs)) && l.Loggable(bs, d)
    ensures SameHome(Patch(d, bs, Log.ContentsAt(disk, bs), |bs|), disk, l)
  {
    var cs := Log.ContentsAt(disk, bs);
    forall b | 0 <= b < |d| && !l.Holds(b) ensures Patch(d, bs, cs, |bs|)[b] == disk[b] {
      if b in bs {
        var i :| 0 <= i < |bs| && bs[i] == b;
        PatchHits(d, bs, cs, |bs|, i);
      } else {
        PatchMisses(d, bs, cs, |bs|, b);
      }
    }
  }

  /** commit of the blocks bs with contents cs starts from d and stops after `crash` of its writes; ds are
      the disks found by the recoveries that follow, each of which is cut short anywhere. */
  ghost predicate Interrupted(d: Disk, l: Layout, bs: seq<nat>, cs: seq<Block>, crash: nat, ds: seq<Disk>) {
    && l.Fits(d) && HeaderCount(d[l.start]) == 0 && |bs| == |cs| && l.Loggable(bs, d)
    && CrashRun(ds, l) && crash <= |WholeCommit(d, l, bs, cs)|
    && ds[0] == if crash == 0 then d else WholeCommit(d, l, bs, cs)[crash - 1]
  }

  /** The disk after a recovery that runs to the end. */
  ghost function Recovered(ds: seq<Disk>, l: Layout): Disk
    requires |ds| > 0 && Readable(ds[|ds| - 1], l)
  {
    var t := RecoverTrace(ds[|ds| - 1], l); t[|t| - 1]
  }

  /** Disk x has a consistent file system in which the inode and the contents of the file are those of v. */
  ghost predicate Survives(sb: Super, v: View, owner: Owners, x: Disk)
    requires v.ip.Ok() && v.ip.size <= MAXBYTES
  {
    && sb.Ok() && |x| == sb.size && v.inum < sb.ninodes
    && var u := Locked(sb, x, v.inum); u.ip == v.ip && Inv(sb, u, owner) && Content(u) == Content(v)
  }

  lemma HomeSurvives(sb: Super, v: View, owner: Owners, x: Disk, l: Layout)
    requires Inv(sb, v, owner) && v.ip.size <= MAXBYTES && DiskInode(sb, v.disk, v.inum) == v.ip
    requires SameHome(x, v.disk, l) && l.start + l.size <= sb.inodestart
    ensures Survives(sb, v, owner, x)
  {
    hide Inv, Content, DiskInode;
    InvBasics(sb, v, owner);
    HomeIsFileSystem(sb, v, owner, x, l);
    SameContent(v, Locked(sb, x, v.inum));
  }

  /** The file of inode j is the same on two disks. */
  ghost predicate SameFile(sb: Super, disk: Disk, x: Disk, j: nat)
    requires sb.Ok() && |disk| == sb.size
  {
    && |x| == sb.size && j < sb.ninodes
    && var u, u' := Locked(sb, disk, j), Locked(sb, x, j);
    u'.ip == u.ip && SameBlocks(u, u') && (u.ip.size <= MAXBYTES ==> Content(u') == Content(u))
  }

  lemma SameFileTwice(sb: Super, a: Disk, b: Disk, c: Disk, j: nat)
    requires sb.Ok() && |a| == |b| == sb.size && SameFile(sb, a, b, j) && SameFile(sb, b, c, j)
    ensures SameFile(sb, a, c, j)
  {
    hide DiskInode, Content, BlockOf, Present;
  }

  lemma HomeKeepsOther(sb: Super, v: View, owner: Owners, x: Disk, l: Layout, j: nat)
    requires Inv(sb, v, owner) && SameHome(x, v.disk, l) && l.start + l.size <= sb.inodestart
    requires j < sb.ninodes && j != v.inum
    ensures SameFile(sb, v.disk, x, j)
  {
    hide Inv, DiskInode, Content, BlockOf, Present, OthersUntouched;
    InvBasics(sb, v, owner);
    HomeOthers(sb, v, owner, x, l);
    OtherFilesSame(sb, v, Locked(sb, x, v.inum), owner, j);
  }

  /** A transaction that wrote src to a file is committed, and the machine stops after any number of the
      disk writes of commit; recovery is cut short any number of times and then runs to the end. The file
      system on disk is consistent, and the file has all of its old contents or all of the new ones. */
  lemma WriteIsCrashAtomic(sb: Super, v0: View, o0: Owners, v1: View, o1: Owners, off: nat, src: seq<Byte>,
                           l: Layout, bs: seq<nat>, d: Disk, crash: nat, ds: seq<Disk>)
    requires Inv(sb, v0, o0) && HoleFree(v0) && off <= v0.ip.size && Wrote(sb, v0, o0, v1, o1, off, src)
    requires DiskInode(sb, v0.disk, v0.inum) == v0.ip && Covered(sb, v0.disk, v1.disk, Log.Members(bs))
    requires l.start + l.size <= sb.inodestart && SameHome(d, v0.disk, l)
    requires forall i :: 0 <= i < |bs| ==> bs[i] < |v1.disk|
    requires Interrupted(d, l, bs, Log.ContentsAt(v1.disk, bs), crash, ds)
    ensures v1.ip.Ok() && v1.ip.size <= MAXBYTES && Content(v1) == Overlay(Content(v0), off, src)
    ensures Readable(ds[|ds| - 1], l)
    ensures if crash <= |bs| then Survives(sb, v0, o0, Recovered(ds, l)) else Survives(sb, v1, o1, Recovered(ds, l))
  {
    hide Inv, RecoverTrace, WholeCommit, Patch, Log.ContentsAt, Overlay, Content, DiskInode, Survives;
    InvBasics(sb, v0, o0);
    InvBasics(sb, v1, o1);
    RecoveredHome(sb, v0.disk, v1.disk, l, bs, d, crash, ds);
    if crash <= |bs| {
      HomeSurvives(sb, v0, o0, Recovered(ds, l), l);
    } else {
      HomeSurvives(sb, v1, o1, Recovered(ds, l), l);
    }
  }

  /** The home blocks after recovery are those before or those after the transaction. */
  lemma RecoveredHome(sb: Super, base: Disk, disk: Disk, l: Layout, bs: seq<nat>, d: Disk, crash: nat, ds: seq<Disk>)
    requires Covered(sb, base, disk, Log.Members(bs)) && SameHome(d, base, l)
    requires forall i :: 0 <= i < |bs| ==> bs[i] < |disk|
    requires Interrupted(d, l, bs, Log.ContentsAt(disk, bs), crash, ds)
    ensures Readable(ds[|ds| - 1], l)
    ensures SameHome(Recovered(ds, l), if crash <= |bs| then base else disk, l)
  {
    hide RecoverTrace, WholeCommit, Patch, Log.ContentsAt;
    CrashAtomicity(d, l, bs, Log.ContentsAt(disk, bs), crash, ds);
    InstalledHome(sb, d, base, disk, l, bs);
  }

  /** And every other file is what it was, whether the write took place or not. */
  lemma WriteSparesOthers(sb: Super, v0: View, o0: Owners, v1: View, o1: Owners, off: nat, src: seq<Byte>,
                          l: Layout, bs: seq<nat>, d: Disk, crash: nat, ds: seq<Disk>, j: nat)
    requires Inv(sb, v0, o0) && HoleFree(v0) && off <= v0.ip.size && Wrote(sb, v0, o0, v1, o1, off, src)
    requires Covered(sb, v0.disk, v1.disk, Log.Members(bs))
    requires l.start + l.size <= sb.inodestart && SameHome(d, v0.disk, l)
    requires forall i :: 0 <= i < |bs| ==> bs[i] < |v1.disk|
    requires Interrupted(d, l, bs, Log.ContentsAt(v1.disk, bs), crash, ds) && j < sb.ninodes && j != v0.inum
    ensures Readable(ds[|ds| - 1], l) && SameFile(sb, v0.disk, Recovered(ds, l), j)
  {
    hide Inv, RecoverTrace, WholeCommit, Patch, Log.ContentsAt, Content, DiskInode, BlockOf, Present, SameFile;
    InvBasics(sb, v0, o0);
    InvBasics(sb, v1, o1);
    RecoveredHome(sb, v0.disk, v1.disk, l, bs, d, crash, ds);
    var x := Recovered(ds, l);
    if crash <= |bs| {
      HomeKeepsOther(sb, v0, o0, x, l, j);
    } else {
      HomeKeepsOther(sb, v1, o1, x, l, j);
      WroteKeepsOther(sb, v0, o0, v1, o1, off, src, j);
      SameFileTwice(sb, v0.disk, v1.disk, x, j);
    }
  }

  lemma WroteKeepsOther(sb: Super, v0: View, o0: Owners, v1: View, o1: Owners, off: nat, src: seq<Byte>, j: nat)
    requires Inv(sb, v0, o0) && HoleFree(v0) && off <= v0.ip.size && Wrote(sb, v0, o0, v1, o1, off, src)
    requires j < sb.ninodes && j != v0.inum
    ensures SameFile(sb, v0.disk, v1.disk, j)
  {
    hide Content, DiskInode, BlockOf, Present, Overlay;
    InvBasics(sb, v1, o1);
    hide Inv;
    OtherFilesSame(sb, v0, v1, o0, j);
  }

  // ----- several operations in one commit

  /** A write of src at offset off of the file of inode inum. */
  datatype FileOp = FileOp(inum: nat, off: nat, src: seq<Byte>)

  /** The operation, with the inode locked, takes the file system on disk d to that on d'. */
  ghost predicate Did(sb: Super, d: Disk, o: Owners, d': Disk, o': Owners, op: FileOp) {
    && sb.Ok() && |d| == |d'| == sb.size && op.inum < sb.ninodes
    && var u := Locked(sb, d, op.inum);
    && Inv(sb, u, o) && HoleFree(u) && op.off <= u.ip.size
    && Wrote(sb, u, o, Locked(sb, d', op.inum), o', op.off, op.src)
  }

  /** The operations that begin_op lets into one transaction, one after the other. */
  ghost predicate Group(sb: Super, ds: seq<Disk>, os: seq<Owners>, ops: seq<FileOp>) {
    && |ds| == |os| == |ops| + 1 && ops != []
    && forall k :: 0 <= k < |ops| ==> Did(sb, ds[k], os[k], ds[k + 1], os[k + 1], ops[k])
  }

  /** What the first k operations make of the contents c of inode j. */
  ghost function After(c: seq<Byte>, ops: seq<FileOp>, j: nat, k: nat): seq<Byte>
    requires k <= |ops|
  {
    if k == 0 then c
    else
      var c', op := After(c, ops, j, k - 1), ops[k - 1];
      if op.inum == j && op.off <= |c'| then Overlay(c', op.off, op.src) else c'
  }

  lemma DidConsistent(sb: Super, d: Disk, o: Owners, d': Disk, o': Owners, op: FileOp, j: nat)
    requires Did(sb, d, o, d', o', op) && j < sb.ninodes
    ensures Inv(sb, Locked(sb, d, j), o) && Inv(sb, Locked(sb, d', j), o')
  {
    hide Inv, HoleFree, DecodeInode;
    WroteSizes(sb, Locked(sb, d, op.inum), o, Locked(sb, d', op.inum), o', op.off, op.src);
    RelockKeeps(sb, Locked(sb, d, op.inum), o, j);
    RelockKeeps(sb, Locked(sb, d', op.inum), o', j);
  }

  /** One operation changes its file and no other. */
  lemma DidContents(sb: Super, d: Disk, o: Owners, d': Disk, o': Owners, op: FileOp, j: nat)
    requires Did(sb, d, o, d', o', op) && j < sb.ninodes && DiskInode(sb, d, j).size <= MAXBYTES
    ensures DiskInode(sb, d', j).size <= MAXBYTES
    ensures var c := Content(Locked(sb, d, j));
            && (op.inum == j ==> op.off <= |c|)
            && Content(Locked(sb, d', j)) == if op.inum == j then Overlay(c, op.off, op.src) else c
  {
    hide Inv, DiskInode, BlockOf, Present, Overlay;
    var u, u' := Locked(sb, d, op.inum), Locked(sb, d', op.inum);
    WroteSizes(sb, u, o, u', o', op.off, op.src);
    if op.inum != j {
      WroteKeepsOther(sb, u, o, u', o', op.off, op.src, j);
    }
  }

  lemma {:induction false} GroupContents(sb: Super, ds: seq<Disk>, os: seq<Owners>, ops: seq<FileOp>, j: nat, k: nat)
    requires Group(sb, ds, os, ops) && k <= |ops| && j < sb.ninodes && sb.Ok() && |ds[0]| == sb.size
    requires DiskInode(sb, ds[0], j).size <= MAXBYTES
    ensures |ds[k]| == sb.size && DiskInode(sb, ds[k], j).size <= MAXBYTES
    ensures Content(Locked(sb, ds[k], j)) == After(Content(Locked(sb, ds[0], j)), ops, j, k)
  {
    hide Did, DiskInode, Content, Overlay;
    if k > 0 {
      GroupContents(sb, ds, os, ops, j, k - 1);
      assert Did(sb, ds[k - 1], os[k - 1], ds[k - 1 + 1], os[k - 1 + 1], ops[k - 1]);
      DidShape(sb, ds[k - 1], os[k - 1], ds[k], os[k], ops[k - 1]);
      DidContents(sb, ds[k - 1], os[k - 1], ds[k], os[k], ops[k - 1], j);
    }
  }

  lemma DidShape(sb: Super, d: Disk, o: Owners, d': Disk, o': Owners, op: FileOp)
    requires Did(sb, d, o, d', o', op)
    ensures sb.Ok() && |d| == |d'| == sb.size
  {
  }

  /** A transaction of any number of writes to any files is committed, and the machine stops anywhere in the
      commit and in the recoveries that follow. Every file has the contents it had before all of the writes, or
      every file has those it has after all of them, and the file system is consistent. */
  lemma GroupIsCrashAtomic(sb: Super, ds: seq<Disk>, os: seq<Owners>, ops: seq<FileOp>, l: Layout, bs: seq<nat>,
                           d: Disk, crash: nat, xs: seq<Disk>, j: nat)
    requires Group(sb, ds, os, ops) && sb.Ok() && |ds[0]| == |ds[|ops|]| == sb.size && j < sb.ninodes
    requires Covered(sb, ds[0], ds[|ops|], Log.Members(bs)) && forall i :: 0 <= i < |bs| ==> bs[i] < sb.size
    requires l.start + l.size <= sb.inodestart && SameHome(d, ds[0], l)
    requires Interrupted(d, l, bs, Log.ContentsAt(ds[|ops|], bs), crash, xs)
    requires DiskInode(sb, ds[0], j).size <= MAXBYTES
    ensures Readable(xs[|xs| - 1], l)
    ensures var x, before := Recovered(xs, l), Content(Locked(sb, ds[0], j));
            && |x| == sb.size && Inv(sb, Locked(sb, x, j), if crash <= |bs| then os[0] else os[|ops|])
            && DiskInode(sb, x, j).size <= MAXBYTES
            && Content(Locked(sb, x, j)) == if crash <= |bs| then before else After(before, ops, j, |ops|)
  {
    hide Did, Inv, DiskInode, Content, After, Covered, Interrupted, Log.ContentsAt, Recovered, Readable;
    var n := |ops|;
    assert Did(sb, ds[0], os[0], ds[0 + 1], os[0 + 1], ops[0]);
    assert Did(sb, ds[n - 1], os[n - 1], ds[n - 1 + 1], os[n - 1 + 1], ops[n - 1]);
    DidConsistent(sb, ds[0], os[0], ds[1], os[1], ops[0], j);
    DidConsistent(sb, ds[n - 1], os[n - 1], ds[n], os[n], ops[n - 1], j);
    GroupContents(sb, ds, os, ops, j, n);
    RecoveredHome(sb, ds[0], ds[n], l, bs, d, crash, xs);
    InterruptedSome(d, l, bs, Log.ContentsAt(ds[n], bs), crash, xs);
    if crash <= |bs| {
      HomeSurvives(sb, Locked(sb, ds[0], j), os[0], Recovered(xs, l), l);
    } else {
      HomeSurvives(sb, Locked(sb, ds[n], j), os[n], Recovered(xs, l), l);
    }
  }

  // ----- a write, its transaction and its commit

  /** The first k steps have run on the buffer cache: disk and trace are still d and t, the log has the blocks they
      stored, and outside the log area the logical disk is what they make of `base`. */
  ghost predicate HaveRun(j: Log.Journal, base: Disk, steps: seq<Step>, k: nat, d: Disk, t: seq<Disk>)
    reads j, j.cache
  {
    && k <= |steps| && j.Valid() && Log.OnlyHeld(j.cache.buf, {}) && j.outstanding >= 1
    && Log.Members(j.lh) == Writes(steps[..k]) && |j.lh| == |Writes(steps[..k])|
    && j.cache.memdisk == d && j.cache.trace == t && SameHome(j.cache.view, Effect(base, steps[..k]), j.layout)
  }

  /** Steps outside the log area that find room in the log. */
  ghost predicate CanRun(l: Layout, base: Disk, steps: seq<Step>, lo: nat) {
    && l.start + l.size <= lo && MAXOPBLOCKS < l.size && |Writes(steps)| <= MAXOPBLOCKS && Room(steps, MAXOPBLOCKS)
    && forall k :: 0 <= k < |steps| ==> StepOk(lo, base, steps, k)
  }

  lemma NextStep(l: Layout, base: Disk, steps: seq<Step>, lo: nat, k: nat)
    requires CanRun(l, base, steps, lo) && k < |steps|
    ensures StepOk(lo, base, steps, k) && !l.Holds(steps[k].n)
    ensures |Writes(steps[..k])| <= MAXOPBLOCKS < l.size
    ensures steps[k].LogWrite? ==> |Writes(steps[..k])| < MAXOPBLOCKS
    ensures Writes(steps[..k + 1]) == Writes(steps[..k]) + if steps[k].LogWrite? then {steps[k].n} else {}
    ensures var x := Effect(base, steps[..k]);
            Effect(base, steps[..k + 1]) == if steps[k].LogWrite? then x[steps[k].n := steps[k].data] else x
  {
    hide Writes, Effect;
    assert StepOk(lo, base, steps, k);
    WritesBefore(steps, k);
    Counting.SubsetIsNoLarger(Writes(steps[..k]), Writes(steps));
    assert steps[..k + 1] == steps[..k] + [steps[k]];
    WritesMore(steps[..k], steps[k]);
    EffectMore(base, steps[..k], steps[k]);
  }

  /** One bread, or bread and log_write, on the buffer cache; a bread returns what the file system saw. */
  method RunStep(j: Log.Journal, steps: seq<Step>, k: nat, ghost base: Disk, ghost lo: nat, ghost d: Disk,
                 ghost t: seq<Disk>)
    returns (data: Block)
    requires k < |steps| && HaveRun(j, base, steps, k, d, t) && CanRun(j.layout, base, steps, lo)
    modifies j.cache, j`lh
    ensures HaveRun(j, base, steps, k + 1, d, t) && data == steps[k].data
  {
    hide Log.Journal.Valid, Log.OnlyHeld, CanRun, Writes, Effect, SameHome, Layout.Loggable, Log.Members, Log.Avoids;
    NextStep(j.layout, base, steps, lo, k);
    j.ValidBasics();
    NoneHeld(j.cache.buf, steps[k].n);
    HomeStep(j.cache.view, Effect(base, steps[..k]), j.layout, steps[k].n, steps[k].data);
    AbsorbedMembers(j.lh, steps[k].n);
    if steps[k].Bread? {
      data := j.Read(steps[k].n, {});
    } else {
      data := steps[k].data;
      var ok := j.Update(steps[k].n, data, {});
    }
  }

  lemma NoneHeld(b: seq<BufferCache.Buf>, n: nat)
    ensures Log.Avoids(b, {}, n)
  {
  }

  lemma HomeStep(view: Disk, x: Disk, l: Layout, n: nat, data: Block)
    requires SameHome(view, x, l) && n < |x| && !l.Holds(n)
    ensures |view| == |x| && view[n] == x[n] && SameHome(view[n := data], x[n := data], l)
  {
  }

  lemma AbsorbedMembers(bs: seq<nat>, n: nat)
    requires |bs| == |Log.Members(bs)|
    ensures var r := if n in bs then bs else bs + [n];
            Log.Members(r) == Log.Members(bs) + {n} && |r| == |Log.Members(r)|
  {
    if n !in bs {
      assert Log.Members(bs + [n]) == Log.Members(bs) + {n};
    } else {
      assert Log.Members(bs) == Log.Members(bs) + {n};
    }
  }

  ghost predicate Saw(seen: seq<Block>, steps: seq<Step>) {
    |seen| == |steps| && forall k :: 0 <= k < |steps| ==> seen[k] == steps[k].data
  }

  /** The steps of an operation, one after the other, on the buffer cache and the log: every bread returns what the
      file system saw on its flat disk, and every log_write finds room. */
  method RunSteps(j: Log.Journal, steps: seq<Step>, ghost base: Disk, ghost lo: nat) returns (seen: seq<Block>)
    requires j.Valid() && Log.OnlyHeld(j.cache.buf, {}) && j.lh == [] && j.outstanding >= 1
    requires SameHome(j.cache.view, base, j.layout) && CanRun(j.layout, base, steps, lo)
    modifies j.cache, j`lh
    ensures HaveRun(j, base, steps, |steps|, old(j.cache.memdisk), old(j.cache.trace))
    ensures Saw(seen, steps)
  {
    hide Log.Journal.Valid, Log.OnlyHeld, HaveRun, CanRun;
    ghost var d, t := j.cache.memdisk, j.cache.trace;
    NothingRun(j, base, steps);
    seen := [];
    for k := 0 to |steps|
      invariant HaveRun(j, base, steps, k, d, t)
      invariant Saw(seen, steps[..k])
    {
      var data := RunStep(j, steps, k, base, lo, d, t);
      seen := seen + [data];
    }
    assert steps[..|steps|] == steps;
  }

  lemma NothingRun(j: Log.Journal, base: Disk, steps: seq<Step>)
    requires j.Valid() && Log.OnlyHeld(j.cache.buf, {}) && j.lh == [] && j.outstanding >= 1
    requires SameHome(j.cache.view, base, j.layout)
    ensures HaveRun(j, base, steps, 0, j.cache.memdisk, j.cache.trace)
  {
    hide Log.Journal.Valid, Log.OnlyHeld;
    assert steps[..0] == [] && Writes([]) == {};
  }

  /** Once recovery has run to the end, the file is all old or all new, and the other files are as they were. */
  ghost predicate AllOrNothing(sb: Super, v0: View, o0: Owners, v1: View, o1: Owners, l: Layout, bs: seq<nat>,
                               crash: nat, ds: seq<Disk>)
    requires Inv(sb, v0, o0) && v0.ip.size <= MAXBYTES && Inv(sb, v1, o1) && v1.ip.size <= MAXBYTES
  {
    && |ds| > 0 && Readable(ds[|ds| - 1], l)
    && (if crash <= |bs| then Survives(sb, v0, o0, Recovered(ds, l)) else Survives(sb, v1, o1, Recovered(ds, l)))
    && forall j :: 0 <= j < sb.ninodes && j != v0.inum ==> SameFile(sb, v0.disk, Recovered(ds, l), j)
  }

  /** Whatever interrupts the commit of bs and the recoveries after it. */
  ghost predicate CrashSafe(sb: Super, v0: View, o0: Owners, v1: View, o1: Owners, l: Layout, bs: seq<nat>, d: Disk)
    requires Inv(sb, v0, o0) && v0.ip.size <= MAXBYTES && Inv(sb, v1, o1) && v1.ip.size <= MAXBYTES
    requires forall i :: 0 <= i < |bs| ==> bs[i] < |v1.disk|
  {
    forall crash: nat, ds :: Interrupted(d, l, bs, Log.ContentsAt(v1.disk, bs), crash, ds) ==>
      AllOrNothing(sb, v0, o0, v1, o1, l, bs, crash, ds)
  }

  lemma WriteIsCrashSafe(sb: Super, v0: View, o0: Owners, v1: View, o1: Owners, off: nat, src: seq<Byte>,
                         l: Layout, bs: seq<nat>, d: Disk)
    requires Inv(sb, v0, o0) && HoleFree(v0) && off <= v0.ip.size && Wrote(sb, v0, o0, v1, o1, off, src)
    requires DiskInode(sb, v0.disk, v0.inum) == v0.ip && Covered(sb, v0.disk, v1.disk, Log.Members(bs))
    requires l.start + l.size <= sb.inodestart && SameHome(d, v0.disk, l)
    requires forall i :: 0 <= i < |bs| ==> bs[i] < |v1.disk|
    ensures v0.ip.size <= MAXBYTES && v1.ip.size <= MAXBYTES && CrashSafe(sb, v0, o0, v1, o1, l, bs, d)
  {
    WroteSizes(sb, v0, o0, v1, o1, off, src);
    hide Inv, Interrupted, Wrote, Covered, HoleFree, Log.ContentsAt, DiskInode, Survives, SameFile, Recovered, Readable;
    forall crash: nat, ds | Interrupted(d, l, bs, Log.ContentsAt(v1.disk, bs), crash, ds)
      ensures AllOrNothing(sb, v0, o0, v1, o1, l, bs, crash, ds)
    {
      InterruptedSome(d, l, bs, Log.ContentsAt(v1.disk, bs), crash, ds);
      WriteIsCrashAtomic(sb, v0, o0, v1, o1, off, src, l, bs, d, crash, ds);
      forall j | 0 <= j < sb.ninodes && j != v0.inum ensures SameFile(sb, v0.disk, Recovered(ds, l), j) {
        WriteSparesOthers(sb, v0, o0, v1, o1, off, src, l, bs, d, crash, ds, j);
      }
    }
  }

  lemma WroteSizes(sb: Super, v0: View, o0: Owners, v1: View, o1: Owners, off: nat, src: seq<Byte>)
    requires Inv(sb, v0, o0) && HoleFree(v0) && off <= v0.ip.size && Wrote(sb, v0, o0, v1, o1, off, src)
    ensures Inv(sb, v1, o1) && v0.ip.size <= MAXBYTES && v1.ip.size <= MAXBYTES && |v1.disk| == |v0.disk| == sb.size
  {
  }

  lemma InterruptedSome(d: Disk, l: Layout, bs: seq<nat>, cs: seq<Block>, crash: nat, ds: seq<Disk>)
    requires Interrupted(d, l, bs, cs, crash, ds)
    ensures |ds| > 0
  {
  }

  /** The file system, on its flat disk, and the log that carries it agree outside the log area. */
  ghost predicate InStep(f: File, j: Log.Journal)
    reads f, f.ip, j, j.cache
  {
    && f.ip.Valid() && j.Valid() && Log.OnlyHeld(j.cache.buf, {}) && j.lh == [] && j.outstanding == 0
    && SameHome(j.cache.view, f.ip.disk, j.layout) && SameHome(j.cache.memdisk, f.ip.disk, j.layout)
    && j.layout.start + j.layout.size <= f.ip.sb.inodestart && j.layout.size > MAXOPBLOCKS
  }

  /** The only operation, its steps run on the buffer cache, and end_op, which commits. */
  method EndWrite(f: File, j: Log.Journal) returns (ghost bs: seq<nat>, seen: seq<Block>)
    requires f.ip.Valid() && |f.ip.Logged()| <= MAXOPBLOCKS && Room(f.ip.steps, MAXOPBLOCKS)
    requires j.Valid() && Log.OnlyHeld(j.cache.buf, {}) && j.lh == [] && j.outstanding == 1
    requires SameHome(j.cache.view, f.ip.base, j.layout) && SameHome(j.cache.memdisk, f.ip.base, j.layout)
    requires j.layout.start + j.layout.size <= f.ip.sb.inodestart && j.layout.size > MAXOPBLOCKS
    modifies j, j.cache
    ensures InStep(f, j) && Log.Members(bs) == f.ip.Logged()
    ensures forall i :: 0 <= i < |bs| ==> bs[i] < |f.ip.disk|
    ensures CommittedFrom(old(j.cache.trace), j.cache.trace, old(j.cache.memdisk), j.layout, bs, f.ip.disk)
    ensures Saw(seen, f.ip.steps)
  {
    hide Log.Journal.Valid, Log.OnlyHeld, FileSystem.Files.Valid, Covered, Log.ContentsAt, WholeCommit, SameHome;
    hide CanRun, Room, Writes, Effect;
    ghost var d := j.cache.memdisk;
    f.ip.ChangesLogged();
    StepsCanRun(f.ip, j.layout);
    seen := RunSteps(j, f.ip.steps, f.ip.base, f.ip.sb.inodestart);
    bs := j.lh;
    j.ValidBasics();
    assert f.ip.steps[..|f.ip.steps|] == f.ip.steps;
    ghost var view := j.cache.view;
    HomeContents(view, f.ip.disk, j.layout, bs, d);
    j.outstanding := 0;
    j.Commit({});
    HomeOfHome(j.cache.view, view, f.ip.disk, j.layout);
    HomeOfHome(j.cache.memdisk, view, f.ip.disk, j.layout);
  }

  lemma StepsCanRun(f: FileSystem.Files, l: Layout)
    requires f.Recorded(f.Logged()) && |f.Logged()| <= MAXOPBLOCKS < l.size && Room(f.steps, MAXOPBLOCKS)
    requires l.start + l.size <= f.sb.inodestart
    ensures CanRun(l, f.base, f.steps, f.sb.inodestart) && Effect(f.base, f.steps) == f.disk
    ensures Writes(f.steps) == f.Logged()
  {
    hide Writes, Effect, StepOk, Room, FileSystem.Files.Logged;
  }

  lemma HomeOfHome(x: Disk, y: Disk, z: Disk, l: Layout)
    requires SameHome(x, y, l) && SameHome(y, z, l)
    ensures SameHome(x, z, l)
  {
  }

  lemma HomeContents(view: Disk, disk: Disk, l: Layout, bs: seq<nat>, d: Disk)
    requires SameHome(view, disk, l) && l.Loggable(bs, d) && |d| == |view|
    ensures |disk| == |d| && forall i :: 0 <= i < |bs| ==> bs[i] < |disk|
    ensures Log.ContentsAt(view, bs) == Log.ContentsAt(disk, bs)
  {
  }

  /** The disk after each write of the commit of blocks bs as they are in `disk`; commit of nothing writes nothing. */
  ghost function CommitWrites(d: Disk, l: Layout, bs: seq<nat>, disk: Disk): seq<Disk>
    requires l.Fits(d) && l.Loggable(bs, d) && |disk| == |d|
  {
    if bs == [] then [] else WholeCommit(d, l, bs, Log.ContentsAt(disk, bs))
  }

  /** The disk writes since the trace was t are those of the commit of bs, from disk d. */
  ghost predicate CommittedFrom(t: seq<Disk>, trace: seq<Disk>, d: Disk, l: Layout, bs: seq<nat>, disk: Disk) {
    l.Fits(d) && l.Loggable(bs, d) && |disk| == |d| && trace == t + CommitWrites(d, l, bs, disk)
  }

  /** The file v0 has taken piece at off, and a crash of the commit from disk d leaves all of it or nothing. */
  ghost predicate Landed(sb: Super, v0: View, o0: Owners, v1: View, o1: Owners, off: nat, piece: seq<Byte>,
                         l: Layout, bs: seq<nat>, d: Disk)
  {
    && Inv(sb, v0, o0) && HoleFree(v0) && off <= v0.ip.size && Wrote(sb, v0, o0, v1, o1, off, piece)
    && v0.ip.size <= MAXBYTES && v1.ip.size <= MAXBYTES && (forall i :: 0 <= i < |bs| ==> bs[i] < |v1.disk|)
    && CrashSafe(sb, v0, o0, v1, o1, l, bs, d)
  }

  /** A transaction that writes one chunk to a file, through the cache and the log. On success the file has the
      bytes, and a crash at any moment of the commit leaves all of them or none; w is None for balloc's panic. */
  method WriteThroughLog(f: File, j: Log.Journal, piece: seq<Byte>)
    returns (w: Option<int>, ghost bs: seq<nat>, seen: seq<Block>)
    requires InStep(f, j) && HoleFree(f.ip.Now()) && 0 < |piece| <= CHUNK
    requires DiskInode(f.ip.sb, f.ip.disk, f.ip.inum) == f.ip.ip
    modifies f, f.ip, j, j.cache
    ensures w.None? <==> old(f.off) <= old(f.ip.ip).size && old(f.off) + |piece| <= MAXBYTES
                         && Lacks(f.ip.sb, old(f.ip.Now()), old(f.off) / BSIZE, Upto(old(f.off), |piece|))
    ensures w.Some? ==> InStep(f, j) && Log.Members(bs) == f.ip.Logged() && Saw(seen, f.ip.steps)
    ensures w.Some? ==> CommittedFrom(old(j.cache.trace), j.cache.trace, old(j.cache.memdisk), j.layout, bs, f.ip.disk)
    ensures w.Some? && old(f.off) <= old(f.ip.ip).size && old(f.off) + |piece| <= MAXBYTES ==> w.value == |piece|
    ensures w.Some? && !(old(f.off) <= old(f.ip.ip).size && old(f.off) + |piece| <= MAXBYTES) ==>
              w.value == -1 && f.ip.Now() == old(f.ip.Now())
    ensures w == Some(|piece|) ==> Landed(f.ip.sb, old(f.ip.Now()), old(f.ip.owner), f.ip.Now(), f.ip.owner,
                                          old(f.off), piece, j.layout, bs, old(j.cache.memdisk))
  {
    hide Log.Journal.Valid, Log.OnlyHeld, FileSystem.Files.Valid, Covered, Inv, HoleFree, Wrote, SameHome, Full;
    hide CrashSafe, CommittedFrom, Saw, Room, Ran, Fed, Starved, Lacks, Upto, Log.Members;
    ghost var v0, o0, off0 := f.ip.Now(), f.ip.owner, f.off;
    ghost var d := j.cache.memdisk;
    f.ip.ValidBasics();
    bs, seen := [], [];
    w := f.WriteOp(piece);
    if w.Some? {
      j.outstanding := 1;
      bs, seen := EndWrite(f, j);
      f.ip.ValidBasics();
      f.ip.ChangesLogged();
      if w.value >= 0 {
        WriteIsCrashSafe(f.ip.sb, v0, o0, f.ip.Now(), f.ip.owner, off0, piece, j.layout, bs, d);
      }
    }
  }
}
