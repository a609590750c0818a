/** balloc, bmap, readi, writei and itrunc on the locked inode of a file system. bread sees the logical disk that
    the log maintains: `disk` is that flat disk, log_write is a store to it, and `steps` records both. */
module FileSystem {
  import opened Params
  import opened Blocks
  import opened Bits
  import opened Inodes
  import opened Ownership
  import opened FileBlocks
  import opened FileBytes
  import opened Truncation
  import opened Space
  import opened Steps
  import opened Wrappers
  import Counting

  lemma MapPosition(sb: Super, b: nat, bi: nat)
    requires sb.Ok() && b % BPB == 0 && bi < BPB
    ensures sb.Bblock(b + bi) == sb.Bblock(b) && (b + bi) % BPB == bi
  {
  }

  lemma OneMapBlock(sb: Super, b: nat)
    requires b < sb.size
    ensures sb.size <= BPB ==> sb.Bblock(b) == sb.bmapstart
  {
  }

  lemma IndirectHere(sb: Super, v: View, owner: Owners)
    requires Inv(sb, v, owner) && v.ip.addrs[NDIRECT] != 0
    ensures v.ip.addrs[NDIRECT] < sb.size && Filled(sb, v, v, {NDIRECT}) && Grew(sb, v, v, owner, owner, MAXFILE)
  {
    OwnRefs(sb, v, owner, NDIRECT);
    FilledHere(sb, v, NDIRECT);
  }

  lemma IndirectIsHome(sb: Super, v: View, owner: Owners)
    requires Inv(sb, v, owner) && v.ip.addrs[NDIRECT] != 0
    ensures sb.inodestart <= v.ip.addrs[NDIRECT]
  {
    OwnRefs(sb, v, owner, NDIRECT);
  }

  /** Block bn of the file, which had none, has got block r of the disk. */
  ghost predicate GotBlock(sb: Super, v: View, o: Owners, v': View, o': Owners, bn: nat, r: nat) {
    && Inv(sb, v, o) && Inv(sb, v', o') && bn < MAXFILE && sb.datastart <= r < sb.size
    && RefAt(v, bn) == 0 && RefAt(v', bn) == r && Grew(sb, v, v', o, o', bn) && Filled(sb, v, v', {SlotOf(bn)})
  }

  /** The indirect block has nothing in entry j. */
  ghost predicate LacksEntry(v: View, j: nat) {
    && v.ip.Ok() && j < NINDIRECT
    && 0 < v.ip.addrs[NDIRECT] < |v.disk| && WordAt(v.disk[v.ip.addrs[NDIRECT]], j) == 0
  }

  lemma DirectFed(sb: Super, v: View, v': View, bn: nat)
    requires Filled(sb, v, v', {bn}) && bn < NDIRECT
    ensures Fed(sb, v, v', bn, bn + 1)
  {
    hide Filled;
    WantedOne(bn);
  }

  lemma DirectStarved(sb: Super, v: View, bn: nat)
    requires Sized(sb, v) && Full(sb, v.disk) && bn < NDIRECT && v.ip.addrs[bn] == 0
    ensures Starved(sb, v, v, bn, bn + 1)
  {
    StarvedHere(sb, v, bn, bn + 1, bn);
  }

  lemma NoIndirect(sb: Super, v: View, bn: nat)
    requires Sized(sb, v) && Full(sb, v.disk) && v.ip.addrs[NDIRECT] == 0 && NDIRECT <= bn < MAXFILE
    ensures Starved(sb, v, v, bn, bn + 1)
  {
    StarvedHere(sb, v, bn, bn + 1, NDIRECT);
  }

  class Files {
    const sb: Super
    var disk: Disk
    var inum: nat                   // the locked inode and its in-memory copy
    var ip: Inode
    ghost var owner: Owners
    ghost var base: Disk            // the disk when the transaction began
    var dataLog: set<nat>           // blocks logged since as file data,
    var mapLog: set<nat>            // as free map blocks for file data,
    var indLog: set<nat>            // for the indirect block,
    var inodeLog: set<nat>          // and for the inode
    var steps: seq<Step>            // what it has read and logged, in order

    constructor (s: Super, d: Disk, i: nat, x: Inode, ghost o: Owners)
      ensures sb == s && disk == base == d && inum == i && ip == x && owner == o
      ensures dataLog == mapLog == indLog == inodeLog == {} && steps == []
    {
      sb, disk, base, inum, ip, owner := s, d, d, i, x, o;
      dataLog, mapLog, indLog, inodeLog, steps := {}, {}, {}, {}, [];
    }

    ghost function Now(): View
      reads this
    {
      View(disk, inum, ip)
    }

    function Logged(): set<nat>
      reads this`dataLog, this`mapLog, this`indLog, this`inodeLog
    {
      dataLog + mapLog + indLog + inodeLog
    }

    /** The blocks in `logged` have been logged since the transaction began, and nothing else has changed. */
    ghost predicate Recorded(logged: set<nat>)
      reads this`disk, this`base, this`steps
    {
      Ran(sb.inodestart, base, steps, disk, logged)
    }

    /** Blocks are owned properly, and every block changed since the transaction began is logged. */
    ghost predicate Valid()
      reads this
    {
      && Inv(sb, Now(), owner) && Covered(sb, base, disk, Logged()) && Recorded(Logged())
      && indLog <= {ip.addrs[NDIRECT], sb.Bblock(ip.addrs[NDIRECT])}
      && (ip.addrs[NDIRECT] == 0 ==> indLog == {})
    }

    lemma ValidBasics()
      requires Valid()
      ensures sb.Ok() && |disk| == sb.size && inum < sb.ninodes && ip.Ok() && Inv(sb, Now(), owner)
      ensures Recorded(Logged())
    {
    }

    lemma ChangesLogged()
      requires Valid()
      ensures Covered(sb, base, disk, Logged()) && Recorded(Logged())
    {
    }

    /** On a disk with one free map block, that is the only one logged for file data. */
    ghost predicate OneMap()
      reads this`mapLog
    {
      sb.size <= BPB ==> mapLog <= {sb.bmapstart}
    }

    /** A new transaction: nothing is logged yet. */
    method BeginOp()
      requires Valid()
      modifies this`base, this`steps, this`dataLog, this`mapLog, this`indLog, this`inodeLog
      ensures Valid() && base == disk && dataLog == mapLog == indLog == inodeLog == {} && steps == []
    {
      hide Inv, Ran;
      RanNothing(sb.inodestart, disk);
      base, steps := disk, [];
      dataLog, mapLog, indLog, inodeLog := {}, {}, {}, {};
    }

    /** bread and brelse: the data of block n. */
    method Bread(n: nat, ghost logged: set<nat>) returns (data: Block)
      requires sb.inodestart <= n < |disk| && Recorded(logged)
      modifies this`steps
      ensures data == disk[n] && Recorded(logged) && steps == old(steps) + [Step.Bread(n, data)]
    {
      hide Ran;
      data := disk[n];
      RanBread(sb.inodestart, base, steps, disk, logged, n);
      steps := steps + [Step.Bread(n, data)];
    }

    /** log_write of a buffer that holds block n and has been changed to `data`. */
    method LogWrite(n: nat, data: Block, ghost logged: set<nat>)
      requires n < |disk| && Recorded(logged)
      modifies this`disk, this`steps
      ensures disk == old(disk)[n := data] && (sb.inodestart <= n ==> Recorded(logged + {n}))
      ensures steps == old(steps) + [Step.LogWrite(n, data)]
    {
      hide Ran;
      if sb.inodestart <= n {
        RanLogWrite(sb.inodestart, base, steps, disk, logged, n, data);
      }
      disk := disk[n := data];
      steps := steps + [Step.LogWrite(n, data)];
    }

    /** Unlock the inode in memory, once it equals its copy on disk, and read and lock inode j. */
    method Ilock(j: nat)
      requires Valid() && DiskInode(sb, disk, inum) == ip && j < sb.ninodes && indLog == {}
      modifies this`inum, this`ip, this`steps
      ensures Valid() && Now() == Locked(sb, disk, j)
    {
      hide Inv, Covered, Ran, DecodeInode;
      ValidBasics();
      RelockKeeps(sb, Now(), owner, j);
      var bp := Bread(sb.Iblock(j), Logged());
      inum, ip := j, DecodeInode(bp, j % IPB);
    }

    /** Hand out the first free block, marked and zeroed. None is the panic "balloc: out of blocks". */
    method Balloc(ghost logged: set<nat>) returns (r: Option<nat>)
      requires sb.Ok() && |disk| == sb.size && Recorded(logged)
      modifies this`disk, this`steps
      ensures r.None? ==> disk == old(disk) && Full(sb, disk)
      ensures r.Some? ==>
                && r.value < sb.size && !Marked(sb, old(disk), r.value)
                && (forall b :: 0 <= b < r.value ==> Marked(sb, old(disk), b))
                && disk == Allocated(sb, old(disk), r.value)
                && (sb.inodestart <= r.value ==> Recorded(logged + {r.value, sb.Bblock(r.value)}))
    {
      hide BitAt, SetBit, Recorded;
      var b := 0;
      while b < sb.size
        invariant b % BPB == 0 && disk == old(disk) && Recorded(logged)
        invariant forall c :: 0 <= c < b && c < sb.size ==> Marked(sb, disk, c)
      {
        var bp := Bread(sb.Bblock(b), logged);
        var bi := 0;
        while bi < BPB && b + bi < sb.size
          invariant bi <= BPB && b + bi <= sb.size && disk == old(disk) && Recorded(logged)
          invariant forall c :: 0 <= c < b + bi ==> Marked(sb, disk, c)
        {
          MapPosition(sb, b, bi);
          if !BitAt(bp, bi) {
            LogWrite(sb.Bblock(b), SetBit(bp, bi), logged);
            LogWrite(b + bi, ZeroBlock(), logged + {sb.Bblock(b)});
            assert logged + {sb.Bblock(b)} + {b + bi} == logged + {b + bi, sb.Bblock(b)};
            return Some(b + bi);
          }
          bi := bi + 1;
        }
        b := b + BPB;
      }
      return None;
    }

    /** A new block in slot s of the inode's own addresses. */
    method NewSlot(s: nat) returns (r: Option<nat>)
      requires Valid() && s <= NDIRECT && ip.addrs[s] == 0
      modifies this`disk, this`steps, this`ip, this`owner
      ensures r.None? ==> Full(sb, disk) && Now() == old(Now()) && owner == old(owner)
      ensures r.Some? ==> Inv(sb, old(Now()), old(owner)) && 0 < sb.datastart <= r.value < sb.size
      ensures r.Some? ==> Now() == Linked(sb, old(Now()), s, r.value) && Inv(sb, Now(), owner)
      ensures r.Some? ==> Grew(sb, old(Now()), Now(), old(owner), owner, if s == NDIRECT then MAXFILE else s)
      ensures r.Some? ==> Filled(sb, old(Now()), Now(), {s})
      ensures r.Some? ==> Covered(sb, base, disk, Logged() + {r.value, sb.Bblock(r.value)})
      ensures r.Some? ==> Recorded(Logged() + {r.value, sb.Bblock(r.value)})
    {
      hide Inv, Covered, Ran, Full, Marked, Allocated, Grew, Filled;
      ghost var v := Now();
      ValidBasics();
      r := Balloc(Logged());
      if r.None? {
        return;
      }
      FreshIsUnowned(sb, v, owner, r.value);
      LinkGrew(sb, v, owner, s, r.value);
      LinkFills(sb, v, owner, s, r.value);
      AllocationCovered(sb, base, v.disk, r.value, Logged(), Logged() + {r.value, sb.Bblock(r.value)});
      ip := ip.(addrs := ip.addrs[s := r.value]);
      owner := owner[r.value := (inum, s)];
      assert Now() == Linked(sb, v, s, r.value);
    }

    method MapDirect(bn: nat) returns (r: Option<nat>)
      requires Valid() && bn < NDIRECT
      modifies this`disk, this`steps, this`ip, this`owner, this`dataLog, this`mapLog
      ensures r.Some? ==> Mapped(old(Now()), old(owner), old(dataLog), old(mapLog), bn, r.value)
      ensures r.Some? ==> Filled(sb, old(Now()), Now(), {bn})
      ensures r.None? ==> Full(sb, disk) && Now() == old(Now()) && ip.addrs[bn] == 0
    {
      hide Inv, Covered, Ran, Full, Grew, Filled, Allocated;
      ValidBasics();
      var addr := ip.addrs[bn];
      if addr == 0 {
        r := NewSlot(bn);
        if r.Some? {
          ghost var logged := Logged();
          dataLog, mapLog := dataLog + {r.value}, mapLog + {sb.Bblock(r.value)};
          assert Logged() == logged + {r.value, sb.Bblock(r.value)};
        }
      } else {
        PresentNeedsNoGrowth(sb, Now(), owner, bn);
        FilledHere(sb, Now(), bn);
        r := Some(addr);
      }
    }

    /** Make sure the inode has an indirect block. */
    method EnsureIndirect() returns (ok: bool)
      requires Valid()
      modifies this`disk, this`steps, this`ip, this`owner, this`indLog
      ensures ok ==> Valid() && 0 < ip.addrs[NDIRECT] < sb.size
      ensures ok ==> Grew(sb, old(Now()), Now(), old(owner), owner, MAXFILE) && Filled(sb, old(Now()), Now(), {NDIRECT})
      ensures !ok ==> Full(sb, disk) && Now() == old(Now()) && ip.addrs[NDIRECT] == 0
      ensures old(ip).addrs[NDIRECT] != 0 ==> ok && Now() == old(Now()) && owner == old(owner)
    {
      hide Inv, Covered, Ran, Full, Grew, Filled, Allocated;
      ValidBasics();
      if ip.addrs[NDIRECT] == 0 {
        var a := NewSlot(NDIRECT);
        if a.None? {
          return false;
        }
        ghost var logged := Logged();
        indLog := {a.value, sb.Bblock(a.value)};
        assert Logged() == logged + {a.value, sb.Bblock(a.value)};
      } else {
        IndirectHere(sb, Now(), owner);
      }
      return true;
    }

    /** A new block in entry j of the indirect block. */
    method NewEntry(j: nat) returns (r: Option<nat>)
      requires Valid() && LacksEntry(Now(), j)
      modifies this`disk, this`steps, this`owner
      ensures |ip.addrs| > NDIRECT && ip == old(ip)
      ensures r.Some? ==> Covered(sb, base, disk, Logged() + {r.value, sb.Bblock(r.value), ip.addrs[NDIRECT]})
      ensures r.Some? ==> Recorded(Logged() + {r.value, sb.Bblock(r.value), ip.addrs[NDIRECT]})
      ensures r.Some? ==> GotBlock(sb, old(Now()), old(owner), Now(), owner, NDIRECT + j, r.value)
      ensures r.None? ==> Full(sb, disk) && Now() == old(Now())
    {
      hide Inv, Covered, Ran, Full, Marked, WordAt, SetWord, Allocated, Grew, Filled;
      ghost var v := Now();
      ValidBasics();
      var ind := ip.addrs[NDIRECT];
      IndirectIsHome(sb, v, owner);
      r := Balloc(Logged());
      if r.None? {
        return;
      }
      FreshIsUnowned(sb, v, owner, r.value);
      EnterGrew(sb, v, owner, j, r.value);
      EnterFills(sb, v, owner, j, r.value);
      EnterCovered(sb, v, owner, base, r.value, j, Logged());
      EnteredRefs(sb, v, owner, j, r.value, NDIRECT + 1 + j);
      ghost var logged := Logged() + {r.value, sb.Bblock(r.value)};
      var bp := Bread(ind, logged);
      LogWrite(ind, SetWord(bp, j, r.value), logged);
      assert logged + {ind} == Logged() + {r.value, sb.Bblock(r.value), ind};
      owner := owner[r.value := (inum, NDIRECT + 1 + j)];
      assert Now() == Entered(sb, v, j, r.value);
    }

    /** And the log of it. */
    method AddEntry(j: nat) returns (r: Option<nat>)
      requires Valid() && LacksEntry(Now(), j)
      modifies this`disk, this`steps, this`owner, this`dataLog, this`mapLog, this`indLog
      ensures r.Some? ==> Mapped(old(Now()), old(owner), old(dataLog), old(mapLog), NDIRECT + j, r.value)
      ensures r.Some? ==> Filled(sb, old(Now()), Now(), {NDIRECT + 1 + j})
      ensures r.None? ==> Full(sb, disk) && Now() == old(Now())
    {
      hide Inv, Covered, Ran, Full, WordAt, Grew, Filled;
      ValidBasics();
      r := NewEntry(j);
      if r.Some? {
        InvBasics(sb, Now(), owner);
        var ind, addr := ip.addrs[NDIRECT], r.value;
        ghost var logged := Logged();
        dataLog, mapLog, indLog := dataLog + {addr}, mapLog + {sb.Bblock(addr)}, indLog + {ind};
        assert Logged() == logged + {addr, sb.Bblock(addr), ind};
      }
    }

    /** The block in entry j of the indirect block, a new one when there is none. */
    method EnsureEntry(j: nat) returns (r: Option<nat>)
      requires Valid() && j < NINDIRECT && 0 < ip.addrs[NDIRECT] < sb.size
      modifies this`disk, this`steps, this`owner, this`dataLog, this`mapLog, this`indLog
      ensures r.Some? ==> Mapped(old(Now()), old(owner), old(dataLog), old(mapLog), NDIRECT + j, r.value)
      ensures r.Some? ==> Filled(sb, old(Now()), Now(), {NDIRECT + 1 + j})
      ensures r.None? ==> Full(sb, disk) && Now() == old(Now()) && RefAt(Now(), NDIRECT + j) == 0
    {
      hide Covered, Ran, Full, WordAt, Inv, Grew, Filled;
      ValidBasics();
      IndirectIsHome(sb, Now(), owner);
      var bp := Bread(ip.addrs[NDIRECT], Logged());
      var addr := WordAt(bp, j);
      if addr == 0 {
        r := AddEntry(j);
      } else {
        PresentNeedsNoGrowth(sb, Now(), owner, NDIRECT + j);
        FilledHere(sb, Now(), NDIRECT + 1 + j);
        r := Some(addr);
      }
    }

    /** The disk address of block bn of the file, allocating it when there is none. None, balloc's panic, means
        that there were fewer free blocks than this takes. */
    method Bmap(bn: nat) returns (r: Option<nat>)
      requires Valid() && bn < MAXFILE
      modifies this`disk, this`steps, this`ip, this`owner, this`dataLog, this`mapLog, this`indLog
      ensures r.Some? ==> Mapped(old(Now()), old(owner), old(dataLog), old(mapLog), bn, r.value)
      ensures r.Some? ==> Fed(sb, old(Now()), Now(), bn, bn + 1)
      ensures r.None? ==> Full(sb, disk) && Starved(sb, old(Now()), Now(), bn, bn + 1)
      ensures r.None? <==> Lacks(sb, old(Now()), bn, bn + 1)
      ensures Present(old(Now()), bn) ==> r.Some?
    {
      hide Inv, Covered, Ran, Full, Grew, Fed, Filled, Starved, Lacks, WordAt, Mapped;
      ghost var v0, o0 := Now(), owner;
      ValidBasics();
      if bn < NDIRECT {
        r := MapDirect(bn);
        if r.Some? {
          DirectFed(sb, v0, Now(), bn);
        } else {
          DirectStarved(sb, v0, bn);
        }
      } else {
        r := MapIndirect(bn);
      }
      if r.Some? {
        FedHasEnough(sb, v0, Now(), bn, bn + 1);
      } else {
        StarvedLacks(sb, v0, Now(), bn, bn + 1);
      }
    }

    /** bmap's indirect case. */
    method MapIndirect(bn: nat) returns (r: Option<nat>)
      requires Valid() && NDIRECT <= bn < MAXFILE
      modifies this`disk, this`steps, this`ip, this`owner, this`dataLog, this`mapLog, this`indLog
      ensures r.Some? ==> Mapped(old(Now()), old(owner), old(dataLog), old(mapLog), bn, r.value)
      ensures r.Some? ==> Fed(sb, old(Now()), Now(), bn, bn + 1)
      ensures r.None? ==> Full(sb, disk) && Starved(sb, old(Now()), Now(), bn, bn + 1)
      ensures Present(old(Now()), bn) ==> r.Some?
    {
      hide Inv, Covered, Ran, Full, Fed, Filled, Starved, WordAt, OthersUntouched, OwnersKept, DiskInode, BlockOf;
      ghost var v0, o0 := Now(), owner;
      ValidBasics();
      var ok := EnsureIndirect();
      if !ok {
        NoIndirect(sb, v0, bn);
        return None;
      }
      ghost var v1, o1 := Now(), owner;
      ValidBasics();
      r := EnsureEntry(bn - NDIRECT);
      if r.Some? {
        ValidBasics();
        GrewTwice(sb, v0, v1, Now(), o0, o1, owner, bn);
        FilledBoth(sb, v0, v1, Now(), bn);
      } else {
        StarvedAfter(sb, v0, v1, bn);
      }
    }

    /** Copy up to n bytes at offset off out of the file; -1 for an offset beyond the end or one that
        wraps around. */
    method Readi(off: Word, n: Word) returns (r: int, dst: seq<Byte>)
      requires Valid() && HoleFree(Now())
      modifies this`disk, this`steps, this`ip, this`owner, this`dataLog, this`mapLog, this`indLog, this`inodeLog
      ensures Valid() && Now() == old(Now())
      ensures if off > ip.size || off + n >= WORD_MOD then r == -1 && dst == []
              else r == (if off + n > ip.size then ip.size - off else n) && dst == Content(Now())[off..off + r]
    {
      hide Inv, Valid, Content, Bytes, ByteAt, Present;
      ValidBasics();
      if off > ip.size || (off + n) % WORD_MOD < off {
        return -1, [];
      }
      var count := if off + n > ip.size then ip.size - off else n;
      dst := ReadBytes(off, count);
      return count, dst;
    }

    /** readi's loop. */
    method ReadBytes(off: nat, count: nat) returns (dst: seq<Byte>)
      requires Valid() && HoleFree(Now()) && off + count <= ip.size
      modifies this`disk, this`steps, this`ip, this`owner, this`dataLog, this`mapLog, this`indLog, this`inodeLog
      ensures Valid() && Now() == old(Now()) && dst == Content(Now())[off..off + count]
    {
      hide Inv, Valid, Content, Bytes, ByteAt, Present;
      ValidBasics();
      ghost var v := Now();
      var tot, o := 0, off;
      dst := [];
      assert dst == Content(v)[off..o];
      while tot < count
        invariant tot <= count && o == off + tot && Valid() && Now() == v
        invariant dst == Content(v)[off..o]
      {
        o, tot, dst := ReadStep(o, tot, count, dst, off);
      }
    }

    /** One iteration of readi's loop. */
    method ReadStep(o: nat, tot: nat, count: nat, dst: seq<Byte>, ghost off: nat)
      returns (o': nat, tot': nat, dst': seq<Byte>)
      requires Valid() && HoleFree(Now()) && tot < count && o == off + tot && off + count <= ip.size
      requires dst == Content(Now())[off..o]
      modifies this`disk, this`steps, this`ip, this`owner, this`dataLog, this`mapLog, this`indLog, this`inodeLog
      ensures Valid() && Now() == old(Now()) && tot < tot' <= count && o' == off + tot'
      ensures dst' == Content(Now())[off..o']
    {
      hide Inv, Valid, Mapped, BlockOf, WordAt, Content, Bytes, ByteAt, Present;
      ghost var v := Now();
      ValidBasics();
      assert o / BSIZE * BSIZE <= o;
      var addr := BmapPresent(o / BSIZE);
      var m := if count - tot < BSIZE - o % BSIZE then count - tot else BSIZE - o % BSIZE;
      var bp := BreadFile(addr);
      var piece := bp[o % BSIZE..o % BSIZE + m];
      o', tot', dst' := o + m, tot + m, dst + piece;
      PieceOfBlock(v, o, m);
      assert Content(v)[off..o'] == Content(v)[off..o] + Content(v)[o..o'];
    }

    /** bmap for a block that exists only looks it up. */
    method BmapPresent(bn: nat) returns (addr: nat)
      requires Valid() && bn < MAXFILE && Present(Now(), bn)
      modifies this`disk, this`steps, this`ip, this`owner, this`dataLog, this`mapLog, this`indLog, this`inodeLog
      ensures Valid() && Now() == old(Now()) && sb.inodestart <= addr < |disk| && disk[addr] == BlockOf(Now(), bn)
    {
      var r := Bmap(bn);
      addr := r.value;
      OwnRefs(sb, Now(), owner, SlotOf(bn));
    }

    method BreadFile(addr: nat) returns (data: Block)
      requires Valid() && sb.inodestart <= addr < |disk|
      modifies this`steps
      ensures Valid() && data == disk[addr]
    {
      hide Inv, Covered, Ran;
      data := Bread(addr, Logged());
    }

    /** Write src at offset off: -1 for an offset beyond the end or a file that would become too large,
        None for balloc's panic on a full disk. The transaction logs at most four kinds of blocks. */
    method Writei(src: seq<Byte>, off: Word) returns (r: Option<int>)
      requires Valid() && HoleFree(Now()) && |src| < WORD_MOD && dataLog == mapLog == indLog == inodeLog == {}
      modifies this`disk, this`steps, this`ip, this`owner, this`dataLog, this`mapLog, this`indLog, this`inodeLog
      ensures off > old(ip).size || off + |src| > MAXBYTES ==>
                r == Some(-1) && Now() == old(Now()) && owner == old(owner) && Valid() && Logged() == {}
      ensures off <= old(ip).size && off + |src| <= MAXBYTES && r.Some? ==>
                && r.value == |src| && Valid() && Wrote(sb, old(Now()), old(owner), Now(), owner, off, src)
                && |dataLog| <= BlockCount(off, |src|) && |mapLog| <= NewBlocks(off, |src|) && |indLog| <= 2
                && |inodeLog| <= 1
      ensures r.Some? ==> OneMap() && InodeLast()
      ensures off <= old(ip).size && off + |src| <= MAXBYTES && r.Some? ==>
                Fed(sb, old(Now()), Now(), off / BSIZE, Upto(off, |src|))
      ensures r.None? ==> Full(sb, disk) && Starved(sb, old(Now()), Now(), off / BSIZE, Upto(off, |src|))
      ensures r.None? <==> off <= old(ip).size && off + |src| <= MAXBYTES
                           && Lacks(sb, old(Now()), off / BSIZE, Upto(off, |src|))
    {
      if off > ip.size || (off + |src|) % WORD_MOD < off {
        return Some(-1);
      }
      if off + |src| > MAXBYTES {
        return Some(-1);
      }
      hide Inv, Valid, Full, Writing, HoleFree, Wrote, BlockCount, NewBlocks, Fed, Starved, Lacks;
      ghost var v0, o0 := Now(), owner;
      ValidBasics();
      StartWriting(off, src);
      var tot := 0;
      while tot < |src|
        invariant tot <= |src| && Writing(v0, o0, off, src, tot)
      {
        var ok;
        ok, tot := WriteStep(src, off, tot, v0, o0);
        if !ok {
          StarvedLacks(sb, v0, Now(), off / BSIZE, Upto(off, |src|));
          return None;
        }
      }
      FinishWrite(src, off, v0, o0);
      FedHasEnough(sb, v0, Now(), off / BSIZE, Upto(off, |src|));
      return Some(|src|);
    }

    lemma StartWriting(off: nat, src: seq<Byte>)
      requires Valid() && dataLog == mapLog == indLog == inodeLog == {}
      ensures Inv(sb, Now(), owner) && Writing(Now(), owner, off, src, 0)
    {
      hide Inv;
      ValidBasics();
      NoProgress(sb, Now(), owner, off, src);
      NothingFed(sb, Now(), off / BSIZE);
    }

    /** The invariant of writei's loop: tot bytes are written. */
    ghost predicate Writing(v0: View, o0: Owners, off: nat, src: seq<Byte>, tot: nat)
      requires Inv(sb, v0, o0) && tot <= |src|
      reads this
    {
      && Valid() && Progress(sb, v0, o0, Now(), owner, off, src, tot) && inodeLog == {}
      && (tot == |src| || AtBoundary(off, tot))
      && |dataLog| <= BlockCount(off, tot) && |mapLog| <= NewBlocks(off, tot) && OneMap()
      && Fed(sb, v0, Now(), off / BSIZE, Upto(off, tot))
    }

    /** writei's last step: a longer file gets its new size. */
    method FinishWrite(src: seq<Byte>, off: nat, ghost v0: View, ghost o0: Owners)
      requires Inv(sb, v0, o0) && HoleFree(v0) && off <= v0.ip.size && off + |src| <= MAXBYTES
      requires Writing(v0, o0, off, src, |src|)
      modifies this`disk, this`steps, this`ip, this`inodeLog
      ensures Valid() && Wrote(sb, v0, o0, Now(), owner, off, src)
      ensures |dataLog| <= BlockCount(off, |src|) && |mapLog| <= NewBlocks(off, |src|) && |indLog| <= 2
      ensures |inodeLog| <= 1
      ensures OneMap() && Fed(sb, v0, Now(), off / BSIZE, Upto(off, |src|)) && InodeLast()
    {
      hide Inv, Valid, Progress, HoleFree, Wrote, Resized, BlockCount, NewBlocks, Covered, Ran, Logged, Filled;
      hide SameSpace, Recorded, InodeLast;
      ghost var v := Now();
      ValidBasics();
      WriteFinished(sb, v0, o0, Now(), owner, off, src);
      IndirectLogSmall();
      NoInodeYet();
      if |src| > 0 && off + |src| > ip.size {
        ResizedSame(sb, v, owner, off + |src|);
        SameSpaceFills(sb, v0, v, Resized(sb, v, off + |src|), WantedSlots(off / BSIZE, Upto(off, |src|)));
        Resize(off + |src|);
      }
    }

    /** Nothing is logged after the inode. */
    ghost predicate InodeLast()
      reads this`steps, this`dataLog, this`mapLog, this`indLog
    {
      steps == [] || Writes(steps[..|steps| - 1]) <= dataLog + mapLog + indLog
    }

    /** As long as the inode is not logged. */
    lemma NoInodeYet()
      requires Recorded(Logged()) && inodeLog == {}
      ensures InodeLast()
    {
      hide Effect, Writes, StepOk;
      assert Logged() == dataLog + mapLog + indLog;
      if steps != [] {
        WritesBefore(steps, |steps| - 1);
      }
    }

    /** With one free map block, the free map, the indirect block and the inode take one block each. */
    lemma OneMapLogSmall()
      requires Valid() && OneMap() && sb.size <= BPB
      ensures |Logged()| <= |dataLog| + |inodeLog| + 2
    {
      hide Inv, Covered, Ran;
      ValidBasics();
      var ind := ip.addrs[NDIRECT];
      assert mapLog + indLog <= {sb.bmapstart, ind} by {
        BlockInRangeOf(ind);
      }
      Counting.SubsetIsNoLarger(mapLog + indLog, {sb.bmapstart, ind});
      assert Logged() == dataLog + inodeLog + (mapLog + indLog);
    }

    lemma BlockInRangeOf(ind: nat)
      requires Valid() && ind == ip.addrs[NDIRECT]
      ensures sb.size <= BPB && ind != 0 ==> sb.Bblock(ind) == sb.bmapstart
    {
      OwnRefs(sb, Now(), owner, NDIRECT);
      if ind != 0 {
        OneMapBlock(sb, ind);
      }
    }

    lemma IndirectLogSmall()
      requires Valid()
      ensures |indLog| <= 2
    {
      Counting.SubsetIsNoLarger(indLog, {ip.addrs[NDIRECT], sb.Bblock(ip.addrs[NDIRECT])});
    }

    /** Set the size and bring the inode to its block. */
    method Resize(size: Word)
      requires Valid() && Inv(sb, Resized(sb, Now(), size), owner) && inodeLog == {}
      modifies this`disk, this`steps, this`ip, this`inodeLog
      ensures Valid() && Now() == Resized(sb, old(Now()), size) && |inodeLog| == 1 && InodeLast()
    {
      hide Inv, Covered, Ran, Writes;
      ValidBasics();
      ip := ip.(size := size);
      Iupdate();
    }

    method Iupdate()
      requires sb.Ok() && |disk| == sb.size && inum < sb.ninodes && ip.Ok() && Covered(sb, base, disk, Logged())
      requires Recorded(Logged())
      modifies this`disk, this`steps, this`inodeLog
      ensures Now() == Updated(sb, old(Now())) && inodeLog == old(inodeLog) + {sb.Iblock(inum)}
      ensures Covered(sb, base, disk, Logged()) && Recorded(Logged())
      ensures |steps| > 0 && Writes(steps[..|steps| - 1]) == old(Logged())
    {
      hide Covered, Effect, Writes, StepOk, EncodeInode;
      var n := sb.Iblock(inum);
      ghost var was, logged := disk, Logged();
      var bp := Bread(n, logged);
      ghost var before := steps;
      LogWrite(n, EncodeInode(bp, inum % IPB, ip), logged);
      inodeLog := inodeLog + {n};
      assert steps[..|steps| - 1] == before;
      assert Logged() == logged + {n};
      StoreCovered(sb, base, was, n, disk[n], logged, Logged());
    }

    /** One iteration of writei's loop. */
    method WriteStep(src: seq<Byte>, off: nat, tot: nat, ghost v0: View, ghost o0: Owners) returns (ok: bool, tot': nat)
      requires Inv(sb, v0, o0) && HoleFree(v0) && off <= v0.ip.size && tot < |src| && off + |src| <= MAXBYTES
      requires Writing(v0, o0, off, src, tot)
      modifies this`disk, this`steps, this`ip, this`owner, this`dataLog, this`mapLog, this`indLog, this`inodeLog
      ensures tot < tot' <= |src|
      ensures ok ==> Writing(v0, o0, off, src, tot')
      ensures !ok ==> Full(sb, disk) && Starved(sb, v0, Now(), off / BSIZE, Upto(off, |src|))
    {
      hide Inv, Valid, Full, Progress, HoleFree, Present, Fed, Starved, Upto;
      ghost var v := Now();
      OneMoreBlock(off, tot, |src|);
      FirstBlockPresent(sb, v0, o0, Now(), owner, off, src, tot);
      tot' := tot + Portion(off + tot, |src| - tot);
      ok := WritePortion(src, off, tot, tot', (off + tot) / BSIZE, v0, o0);
      FedStep(sb, v0, v, Now(), off, tot, |src|);
    }

    /** Store the bytes from tot to tot', which all belong into block bn of the file. */
    method WritePortion(src: seq<Byte>, off: nat, tot: nat, tot': nat, bn: nat, ghost v0: View, ghost o0: Owners)
      returns (ok: bool)
      requires Inv(sb, v0, o0) && tot < tot' <= |src| && off + |src| <= MAXBYTES && AtBoundary(off, tot)
      requires tot' == tot + Portion(off + tot, |src| - tot) && bn == (off + tot) / BSIZE
      requires WithinBlock(off + tot, tot' - tot)
      requires Valid() && Progress(sb, v0, o0, Now(), owner, off, src, tot)
      modifies this`disk, this`steps, this`ip, this`owner, this`dataLog, this`mapLog, this`indLog, this`inodeLog
      ensures ok ==> Valid() && Progress(sb, v0, o0, Now(), owner, off, src, tot') && inodeLog == old(inodeLog)
      ensures ok ==> Fed(sb, old(Now()), Now(), bn, bn + 1)
      ensures !ok ==> Full(sb, disk) && Starved(sb, old(Now()), Now(), bn, bn + 1)
      ensures ok ==> |dataLog| <= |old(dataLog)| + 1
      ensures ok ==> |mapLog| <= |old(mapLog)| + (if Present(old(Now()), bn) then 0 else 1)
      ensures ok && old(OneMap()) ==> OneMap()
    {
      hide Inv, Valid, Full, Progress, Grew, Portion, WordAt, Present, RefAt, Patched, WithinBlock, AtBoundary, Logged;
      hide Filled, Starved, SameSpace, WantedSlots;
      ghost var v, o := Now(), owner;
      ValidBasics();
      var r := BmapForWrite(bn);
      if r.None? {
        return false;
      }
      ValidBasics();
      PatchProgresses(sb, v0, o0, v, o, Now(), owner, off, src, tot, tot' - tot);
      ghost var v1 := Now();
      PatchedSpace(sb, v1, owner, off + tot, src[tot..tot']);
      SameSpaceFills(sb, v, v1, Patched(v1, off + tot, src[tot..tot']), WantedSlots(bn, bn + 1));
      StoreAt(r.value, off + tot, src[tot..tot']);
      return true;
    }

    /** bmap, as writei uses it: at most one data block and one free map block are logged for the data. */
    method BmapForWrite(bn: nat) returns (r: Option<nat>)
      requires Valid() && bn < MAXFILE
      modifies this`disk, this`steps, this`ip, this`owner, this`dataLog, this`mapLog, this`indLog
      ensures r.Some? ==>
                && Valid() && Inv(sb, Now(), owner) && RefAt(Now(), bn) == r.value && Present(Now(), bn)
                && Grew(sb, old(Now()), Now(), old(owner), owner, bn)
                && (Present(old(Now()), bn) ==> Now() == old(Now()))
                && |dataLog + {r.value}| <= |old(dataLog)| + 1
                && |mapLog| <= |old(mapLog)| + (if Present(old(Now()), bn) then 0 else 1)
      ensures r.Some? && old(OneMap()) ==> OneMap()
      ensures r.Some? ==> Fed(sb, old(Now()), Now(), bn, bn + 1)
      ensures r.None? ==> Full(sb, disk) && Starved(sb, old(Now()), Now(), bn, bn + 1)
    {
      hide Inv, Grew, Full, WordAt, Present, RefAt, Fed, Starved, Lacks;
      r := Bmap(bn);
      if r.Some? {
        BlockInRange(bn);
        OneMapBlock(sb, r.value);
      }
      assert r.Some? ==> dataLog + {r.value} == old(dataLog) + {r.value};
    }

    lemma BlockInRange(bn: nat)
      requires Valid() && bn < MAXFILE
      ensures RefAt(Now(), bn) < sb.size
    {
      hide WordAt;
      OwnRefs(sb, Now(), owner, SlotOf(bn));
    }

    /** memmove into the block at addr, then log_write. */
    method StoreAt(addr: nat, o: nat, piece: seq<Byte>)
      requires ip.Ok() && o < MAXBYTES && WithinBlock(o, |piece|) && Present(Now(), o / BSIZE)
      requires RefAt(Now(), o / BSIZE) == addr
      requires Valid() && Inv(sb, Patched(Now(), o, piece), owner)
      modifies this`disk, this`steps, this`dataLog
      ensures Valid() && Now() == Patched(old(Now()), o, piece) && dataLog == old(dataLog) + {addr}
    {
      hide Inv, Covered, Ran;
      ValidBasics();
      OwnRefs(sb, Now(), owner, SlotOf(o / BSIZE));
      ghost var was, logged := disk, Logged();
      var bp := Bread(addr, logged);
      LogWrite(addr, Spliced(bp, o % BSIZE, piece), logged);
      dataLog := dataLog + {addr};
      assert Logged() == logged + {addr};
      StoreCovered(sb, base, was, addr, disk[addr], logged, Logged());
    }

    /** Clear the mark of block b; false is the panic "freeing free block". */
    method Bfree(b: nat) returns (ok: bool)
      requires sb.Ok() && |disk| == sb.size && b < sb.size && Covered(sb, base, disk, Logged())
      requires Recorded(Logged())
      modifies this`disk, this`steps, this`mapLog
      ensures ok == Marked(sb, old(disk), b)
      ensures disk == if ok then WithoutMark(sb, old(disk), b) else old(disk)
      ensures Covered(sb, base, disk, Logged()) && Recorded(Logged())
    {
      hide Covered, Ran, BitAt, ClearBit;
      var n := sb.Bblock(b);
      ghost var was, logged := disk, Logged();
      var bp := Bread(n, logged);
      if !BitAt(bp, b % BPB) {
        return false;
      }
      LogWrite(n, ClearBit(bp, b % BPB), logged);
      mapLog := mapLog + {n};
      assert Logged() == logged + {n};
      StoreCovered(sb, base, was, n, disk[n], logged, Logged());
      return true;
    }

    /** The file v0 has lost the marks of its first k blocks, in itrunc's order. */
    ghost predicate Truncating(v0: View, o0: Owners, k: nat)
      reads this`disk, this`base, this`steps, this`inum, this`dataLog, this`mapLog, this`indLog, this`inodeLog
    {
      && Unmarked(sb, v0.disk, disk, FreedUpTo(o0, v0.inum, k)) && Covered(sb, base, disk, Logged())
      && Recorded(Logged()) && inum == v0.inum && indLog == {}
    }

    /** Free the block in slot s when there is one; bfree finds it marked. */
    method FreeSlot(s: nat, addr: nat, ghost v0: View, ghost o0: Owners)
      requires Inv(sb, v0, o0) && s < SLOTS && addr == RefOf(v0.disk, v0.ip, s) && Truncating(v0, o0, Rank(s))
      modifies this`disk, this`steps, this`mapLog
      ensures Truncating(v0, o0, Rank(s) + 1)
    {
      hide Inv, Covered, Ran, Logged, RefOf, FreedUpTo, Rank;
      NextFreed(sb, v0, o0, disk, s);
      if addr != 0 {
        UnmarkOne(sb, v0.disk, disk, FreedUpTo(o0, v0.inum, Rank(s)), addr);
        var ok := Bfree(addr);
        assert ok;
      }
    }

    method FreeDirect(ghost v0: View, ghost o0: Owners)
      requires Inv(sb, v0, o0) && ip == v0.ip && Truncating(v0, o0, 0)
      modifies this`disk, this`steps, this`ip, this`mapLog
      ensures Truncating(v0, o0, NDIRECT) && ip.Ok() && ip == v0.ip.(addrs := ip.addrs)
      ensures ip.addrs[NDIRECT] == v0.ip.addrs[NDIRECT]
      ensures forall k :: 0 <= k < NDIRECT ==> ip.addrs[k] == 0
    {
      hide Inv, Truncating, WordAt;
      InvBasics(sb, v0, o0);
      for i := 0 to NDIRECT
        invariant Truncating(v0, o0, i) && ip.Ok() && ip == v0.ip.(addrs := ip.addrs)
        invariant forall k :: 0 <= k <= NDIRECT ==> ip.addrs[k] == if k < i then 0 else v0.ip.addrs[k]
      {
        ghost var was := ip.addrs;
        FreeSlot(i, ip.addrs[i], v0, o0);
        assert ip.addrs == was;
        ip := ip.(addrs := ip.addrs[i := 0]);
      }
    }

    method FreeIndirect(ghost v0: View, ghost o0: Owners)
      requires Inv(sb, v0, o0) && ip.Ok() && ip.addrs[NDIRECT] == v0.ip.addrs[NDIRECT] && Truncating(v0, o0, NDIRECT)
      modifies this`disk, this`steps, this`mapLog
      ensures Truncating(v0, o0, SLOTS)
    {
      hide Inv, Truncating, WordAt;
      InvBasics(sb, v0, o0);
      var ind := ip.addrs[NDIRECT];
      IndirectKept(v0, o0, ind);
      if ind == 0 {
        return;
      }
      var a := BreadIndirect(ind, v0, o0);
      for j := 0 to NINDIRECT
        invariant Truncating(v0, o0, NDIRECT + j)
      {
        FreeSlot(NDIRECT + 1 + j, WordAt(a, j), v0, o0);
      }
      FreeSlot(NDIRECT, ind, v0, o0);
    }

    method BreadIndirect(ind: nat, ghost v0: View, ghost o0: Owners) returns (data: Block)
      requires sb.inodestart <= ind < |disk| && Truncating(v0, o0, NDIRECT)
      modifies this`steps
      ensures data == disk[ind] && Truncating(v0, o0, NDIRECT)
    {
      hide Covered, Ran, FreedUpTo, Unmarked;
      data := Bread(ind, Logged());
    }

    lemma IndirectKept(v0: View, o0: Owners, ind: nat)
      requires Inv(sb, v0, o0) && Truncating(v0, o0, NDIRECT) && ind == v0.ip.addrs[NDIRECT]
      ensures if ind == 0 then Truncating(v0, o0, SLOTS)
              else sb.inodestart <= ind < |disk| == |v0.disk| && disk[ind] == v0.disk[ind]
    {
      if ind == 0 {
        NoIndirectBlocks(sb, v0, o0);
      } else {
        OwnRefs(sb, v0, o0, NDIRECT);
      }
    }

    /** Give back every block of the file and make it empty. */
    method Itrunc()
      requires Valid() && indLog == {}
      modifies this`disk, this`steps, this`ip, this`owner, this`dataLog, this`mapLog, this`indLog, this`inodeLog
      ensures Valid() && Emptied(sb, old(Now()), old(owner), Now(), owner)
    {
      ghost var v0, o0 := Now(), owner;
      assert Truncating(v0, o0, 0) && v0.ip.Ok();
      FreeDirect(v0, o0);
      FreeIndirect(v0, o0);
      EmptyInode(v0, o0);
    }

    /** itrunc's end: no addresses, size 0, and iupdate. */
    method EmptyInode(ghost v0: View, ghost o0: Owners)
      requires Inv(sb, v0, o0) && Truncating(v0, o0, SLOTS) && ip.Ok() && ip == v0.ip.(addrs := ip.addrs)
      requires forall k :: 0 <= k < NDIRECT ==> ip.addrs[k] == 0
      modifies this`disk, this`steps, this`ip, this`owner, this`dataLog, this`mapLog, this`indLog, this`inodeLog
      ensures Valid() && Emptied(sb, v0, o0, Now(), owner)
    {
      assert v0.inum < sb.ninodes;
      TruncationEmpties(sb, v0, o0, disk);
      hide Inv, Covered, Ran, FreedUpTo, Marked, DiskInode, OthersUntouched, OwnersKept;
      ip := ip.(addrs := ip.addrs[NDIRECT := 0]);
      ip := ip.(size := 0);
      assert ip.addrs == NoAddrs();
      owner := o0 - FreedUpTo(o0, v0.inum, SLOTS);
      Iupdate();
    }

    /** What bmap has done when it returns addr for block bn of the file. */
    ghost predicate Mapped(v: View, owner0: Owners, data0: set<nat>, map0: set<nat>, bn: nat, addr: nat)
      requires Inv(sb, v, owner0) && bn < MAXFILE
      reads this
    {
      && Valid() && RefAt(Now(), bn) == addr && Present(Now(), bn)
      && Grew(sb, v, Now(), owner0, owner, bn)
      && (if Present(v, bn) then dataLog == data0 && mapLog == map0 && Now() == v
          else dataLog == data0 + {addr} && mapLog == map0 + {sb.Bblock(addr)})
    }
  }
}
