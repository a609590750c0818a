/** filewrite: a write of any length as a series of transactions that fit into the log. */
module FileWrite {
  import opened Params
  import opened Blocks
  import opened Bits
  import opened Inodes
  import opened Ownership
  import opened FileBytes
  import opened FileSystem
  import opened Space
  import opened Steps
  import opened Wrappers
  import Transactions

  const CHUNK: nat := 1536     // (MAXOPBLOCKS - 1 - 1 - 2) / 2 * 512

  /** Two overlays that meet are one. */
  lemma OverlayTwice(c: seq<Byte>, off: nat, a: seq<Byte>, b: seq<Byte>)
    requires off <= |c|
    ensures off + |a| <= |Overlay(c, off, a)| && Overlay(Overlay(c, off, a), off + |a|, b) == Overlay(c, off, a + b)
  {
  }

  lemma WroteNothing(sb: Super, v: View, o: Owners, off: nat)
    requires Inv(sb, v, o) && HoleFree(v) && off <= v.ip.size
    ensures Wrote(sb, v, o, v, o, off, [])
  {
    hide Inv, FileBlocks.Present, Bytes, ByteAt, DiskInode;
    InvBasics(sb, v, o);
    assert Content(v) == Overlay(Content(v), off, []);
  }

  lemma WroteTwice(sb: Super, v0: View, o0: Owners, v1: View, o1: Owners, v2: View, o2: Owners, off: nat,
                   a: seq<Byte>, b: seq<Byte>)
    requires Inv(sb, v0, o0) && HoleFree(v0) && off <= v0.ip.size && Inv(sb, v1, o1) && HoleFree(v1)
    requires off + |a| <= v1.ip.size
    requires Wrote(sb, v0, o0, v1, o1, off, a) && Wrote(sb, v1, o1, v2, o2, off + |a|, b)
    ensures Wrote(sb, v0, o0, v2, o2, off, a + b)
  {
    OverlayTwice(Content(v0), off, a, b);
    UntouchedTwice(sb, v0, v1, v2, o0, o1);
  }

  lemma WroteReaches(sb: Super, v0: View, o0: Owners, v: View, o: Owners, off: nat, a: seq<Byte>)
    requires Inv(sb, v0, o0) && HoleFree(v0) && off <= v0.ip.size && Wrote(sb, v0, o0, v, o, off, a)
    ensures Inv(sb, v, o) && HoleFree(v) && off + |a| <= v.ip.size
  {
    assert |Content(v)| == v.ip.size && |Content(v0)| == v0.ip.size;
  }

  /** From v0, writing at off0, the first i bytes of src are in the file; v is what it is now. */
  ghost predicate Reached(sb: Super, v0: View, o0: Owners, v: View, o: Owners, off0: nat, src: seq<Byte>, i: nat)
    requires Inv(sb, v0, o0) && HoleFree(v0) && i <= |src|
  {
    && Inv(sb, v, o) && HoleFree(v)
    && (if off0 <= v0.ip.size then Wrote(sb, v0, o0, v, o, off0, src[..i]) && off0 + i <= v.ip.size
        else i == 0 && v == v0 && o == o0)
  }

  lemma ReachedStart(sb: Super, v: View, o: Owners, off: nat, src: seq<Byte>)
    requires Inv(sb, v, o) && HoleFree(v)
    ensures Reached(sb, v, o, v, o, off, src, 0)
  {
    hide Inv, HoleFree, Wrote;
    if off <= v.ip.size {
      WroteNothing(sb, v, o, off);
    }
  }

  lemma ReachedFurther(sb: Super, v0: View, o0: Owners, v1: View, o1: Owners, v2: View, o2: Owners,
                       off0: nat, src: seq<Byte>, i: nat, n: nat)
    requires Inv(sb, v0, o0) && HoleFree(v0) && i + n <= |src| && Reached(sb, v0, o0, v1, o1, off0, src, i)
    requires Inv(sb, v1, o1) && HoleFree(v1) && off0 + i <= v1.ip.size
    requires Wrote(sb, v1, o1, v2, o2, off0 + i, src[i..i + n])
    requires off0 <= v0.ip.size
    ensures Reached(sb, v0, o0, v2, o2, off0, src, i + n)
  {
    hide Inv, HoleFree, Wrote;
    WroteTwice(sb, v0, o0, v1, o1, v2, o2, off0, src[..i], src[i..i + n]);
    assert src[..i] + src[i..i + n] == src[..i + n];
    WroteReaches(sb, v1, o1, v2, o2, off0 + i, src[i..i + n]);
  }

  /** The comment in filewrite: blocks of data, of the free map, indirect block and inode of one chunk. */
  lemma ChunkFits(off: nat, n: nat)
    requires n <= CHUNK
    ensures BlockCount(off, n) + NewBlocks(off, n) + 2 + 1 <= MAXOPBLOCKS
  {
  }

  /** No larger number of whole blocks fits at every offset. */
  lemma ChunkIsLargest(k: nat)
    ensures k <= CHUNK / BSIZE <==>
            forall off: nat :: BlockCount(off, k * BSIZE) + NewBlocks(off, k * BSIZE) + 2 + 1 <= MAXOPBLOCKS
  {
    if k <= CHUNK / BSIZE {
      forall off: nat ensures BlockCount(off, k * BSIZE) + NewBlocks(off, k * BSIZE) + 2 + 1 <= MAXOPBLOCKS {
        ChunkFits(off, k * BSIZE);
      }
    } else {
      assert (k * BSIZE - 1) / BSIZE == k - 1;
      assert BlockCount(0, k * BSIZE) == NewBlocks(0, k * BSIZE) == k;
    }
  }

  /** With a single free map block, as on mkfs's disk. */
  const CHUNK_BLOCKS: nat := 7

  lemma ChunkFitsOneMap(off: nat, n: nat)
    requires n <= CHUNK
    ensures BlockCount(off, n) + 1 + 2 <= CHUNK_BLOCKS
  {
  }

  /** A chunk may call log_write more than MAXOPBLOCKS times, but for few enough distinct blocks: in a log with
      room for LOGSIZE blocks, no run of such transactions panics. */
  lemma ChunksNeverPanic(size: nat)
    requires size > LOGSIZE
    ensures !Transactions.SomeRunPanics(size, Transactions.Blocks(CHUNK_BLOCKS))
  {
    Transactions.BlocksPanicIff(size, CHUNK_BLOCKS);
  }

  predicate WholeChunks(i: nat) {
    i % CHUNK == 0
  }

  lemma OneMoreChunk(i: nat)
    requires WholeChunks(i)
    ensures WholeChunks(i + CHUNK)
  {
  }

  /** How many bytes filewrite tries to write at off: all n, or the whole chunks that fit. */
  function Attempted(off: nat, n: nat): nat {
    if off + n <= MAXBYTES then n else if off <= MAXBYTES then (MAXBYTES - off) / CHUNK * CHUNK else 0
  }

  lemma ChunkIsAttempted(off: nat, n: nat, i: nat, n1: nat)
    requires WholeChunks(i) && i < n && n1 == (if n - i > CHUNK then CHUNK else n - i) && off + i + n1 <= MAXBYTES
    ensures i + n1 <= Attempted(off, n)
  {
  }

  lemma AllAttempted(off: nat, n: nat, i: nat)
    requires WholeChunks(i) && off + i <= MAXBYTES < off + n && off + i + CHUNK > MAXBYTES
    ensures i == Attempted(off, n)
  {
  }

  class File {
    const ip: Files
    var off: Word

    constructor (f: Files, o: Word)
      ensures ip == f && off == o
    {
      ip, off := f, o;
    }

    /** The transaction around one writei. */
    method WriteOp(piece: seq<Byte>) returns (w: Option<int>)
      requires ip.Valid() && HoleFree(ip.Now()) && 0 < |piece| <= CHUNK
      modifies this, ip
      ensures w.None? ==> FileBlocks.Full(ip.sb, ip.disk)
      ensures w.None? ==> Starved(ip.sb, old(ip.Now()), ip.Now(), old(off) / BSIZE, Upto(old(off), |piece|))
      ensures w.Some? && old(off) <= old(ip.ip).size && old(off) + |piece| <= MAXBYTES ==>
                Fed(ip.sb, old(ip.Now()), ip.Now(), old(off) / BSIZE, Upto(old(off), |piece|))
      ensures w.None? <==> old(off) <= old(ip.ip).size && old(off) + |piece| <= MAXBYTES
                           && Lacks(ip.sb, old(ip.Now()), old(off) / BSIZE, Upto(old(off), |piece|))
      ensures w.Some? ==> ip.Valid() && |ip.Logged()| <= MAXOPBLOCKS && ip.base == old(ip.disk)
      ensures w.Some? ==> Room(ip.steps, MAXOPBLOCKS)
      ensures w.Some? && ip.sb.size <= BPB ==> |ip.Logged()| <= CHUNK_BLOCKS
      ensures w.Some? && old(off) <= old(ip.ip).size && old(off) + |piece| <= MAXBYTES ==>
                && w.value == |piece| && off == old(off) + |piece|
                && Wrote(ip.sb, old(ip.Now()), old(ip.owner), ip.Now(), ip.owner, old(off), piece)
      ensures w.Some? && !(old(off) <= old(ip.ip).size && old(off) + |piece| <= MAXBYTES) ==>
                w.value == -1 && ip.Now() == old(ip.Now()) && ip.owner == old(ip.owner) && off == old(off)
    {
      hide Inv, HoleFree, Wrote, BlockCount, NewBlocks, FileBlocks.Full, Fed, Starved, Lacks, Ran, Room;
      ip.BeginOp();
      w := ip.Writei(piece, off);
      ChunkFits(off, |piece|);
      if w.Some? {
        RoomForAll(ip.steps, ip.dataLog + ip.mapLog + ip.indLog, MAXOPBLOCKS);
      }
      if w.Some? && w.value > 0 {
        ChunkFitsOneMap(off, |piece|);
        if ip.sb.size <= BPB {
          ip.OneMapLogSmall();
        }
        off := off + w.value;
      }
    }

    /** i bytes have been written, in whole transactions each of which logged few enough blocks. */
    ghost predicate Written(v0: View, o0: Owners, off0: nat, src: seq<Byte>, i: nat, txs: seq<set<nat>>)
      reads this, ip
      requires Inv(ip.sb, v0, o0) && HoleFree(v0) && i <= |src|
    {
      && ip.Valid() && Reached(ip.sb, v0, o0, ip.Now(), ip.owner, off0, src, i) && off == off0 + i
      && (forall k :: 0 <= k < |txs| ==> |txs[k]| <= MAXOPBLOCKS)
      && Fed(ip.sb, v0, ip.Now(), off0 / BSIZE, Upto(off0, i))
    }

    method WriteChunk(src: seq<Byte>, i: nat, n1: nat, ghost v0: View, ghost o0: Owners, ghost off0: nat,
                      ghost txs: seq<set<nat>>)
      returns (w: Option<int>, ghost txs': seq<set<nat>>)
      requires Inv(ip.sb, v0, o0) && HoleFree(v0) && i + n1 <= |src| && 0 < n1 <= CHUNK
      requires Written(v0, o0, off0, src, i, txs)
      modifies this, ip
      ensures w.None? ==> FileBlocks.Full(ip.sb, ip.disk) && off0 <= v0.ip.size && off0 + i + n1 <= MAXBYTES
      ensures w.None? ==> Starved(ip.sb, v0, ip.Now(), off0 / BSIZE, Upto(off0, i + n1))
      ensures w.Some? ==> if off0 <= v0.ip.size && off0 + i + n1 <= MAXBYTES
                          then w == Some(n1) && Written(v0, o0, off0, src, i + n1, txs')
                          else w == Some(-1) && Written(v0, o0, off0, src, i, txs')
    {
      hide Inv, HoleFree, Wrote, FileBlocks.Full, Files.Valid, Fed, Starved, Upto;
      ghost var v1, o1 := ip.Now(), ip.owner;
      InvBasics(ip.sb, v0, o0);
      InvBasics(ip.sb, v1, o1);
      w := WriteOp(src[i..i + n1]);
      txs' := txs + [ip.Logged()];
      FedOn(ip.sb, v0, v1, ip.Now(), off0, i, n1);
      if w.Some? && w.value > 0 {
        ReachedFurther(ip.sb, v0, o0, v1, o1, ip.Now(), ip.owner, off0, src, i, n1);
      }
    }

    /** The invariant of filewrite's loop. */
    ghost predicate Chunking(v0: View, o0: Owners, off0: nat, src: seq<Byte>, n: int, i: nat, txs: seq<set<nat>>)
      reads this, ip
      requires Inv(ip.sb, v0, o0) && HoleFree(v0)
    {
      && i <= |src| && Written(v0, o0, off0, src, i, txs)
      && (i == 0 || (i <= n && off0 <= v0.ip.size && off0 + i <= MAXBYTES))
      && (i == n || WholeChunks(i))
    }

    /** One iteration of filewrite's loop; a negative w leaves it. */
    method NextChunk(src: seq<Byte>, n: nat, i: nat, ghost v0: View, ghost o0: Owners, ghost off0: nat,
                     ghost txs: seq<set<nat>>)
      returns (w: Option<int>, i': nat, ghost txs': seq<set<nat>>)
      requires Inv(ip.sb, v0, o0) && HoleFree(v0) && i < n <= |src| && Chunking(v0, o0, off0, src, n, i, txs)
      modifies this, ip
      ensures i <= i' <= n
      ensures if w.None? then FileBlocks.Full(ip.sb, ip.disk) else Chunking(v0, o0, off0, src, n, i', txs')
      ensures w.None? ==> off0 <= v0.ip.size
      ensures w.None? ==> Starved(ip.sb, v0, ip.Now(), off0 / BSIZE, Upto(off0, Attempted(off0, n)))
      ensures w.Some? && w.value >= 0 ==> i < i'
      ensures w.Some? && w.value < 0 ==> i' == i
      ensures w.Some? && w.value < 0 ==> (off0 > v0.ip.size || (off0 + n > MAXBYTES && off0 + i + CHUNK > MAXBYTES))
    {
      hide Written, HoleFree, Inv, Files.Valid, FileBlocks.Full, WholeChunks, Starved, Upto, Attempted;
      OneMoreChunk(i);
      var n1 := if n - i > CHUNK then CHUNK else n - i;
      i' := i;
      w, txs' := WriteChunk(src, i, n1, v0, o0, off0, txs);
      if w.None? {
        ChunkIsAttempted(off0, n, i, n1);
        StarvedFurther(ip.sb, v0, ip.Now(), off0, i + n1, Attempted(off0, n));
      }
      if w.Some? && w.value >= 0 {
        i' := i + w.value;
      }
    }

    /** Write n bytes of src at the file offset; r is None for balloc's panic on a full disk.
        `done` is how many bytes reached the file, `txs` the blocks each transaction logged. */
    method Filewrite(src: seq<Byte>, n: int) returns (r: Option<int>, ghost done: nat, ghost txs: seq<set<nat>>)
      requires ip.Valid() && HoleFree(ip.Now()) && n <= |src|
      modifies this, ip
      ensures r.None? ==> FileBlocks.Full(ip.sb, ip.disk)
      ensures r.None? <==> n > 0 && old(off) <= old(ip.ip).size
                           && Lacks(ip.sb, old(ip.Now()), old(off) / BSIZE, Upto(old(off), Attempted(old(off), n)))
      ensures r.Some? ==> Chunking(old(ip.Now()), old(ip.owner), old(off), src, n, done, txs)
      ensures r.Some? ==> if n == 0 || (n > 0 && old(off) <= old(ip.ip).size && old(off) + n <= MAXBYTES)
                          then r == Some(n) && done == n else r == Some(-1)
      ensures r == Some(-1) && n > 0 && old(off) <= old(ip.ip).size ==> old(off) + done + CHUNK > MAXBYTES
    {
      hide Chunking, HoleFree, Inv, Files.Valid, FileBlocks.Full, Starved, Lacks, Upto, Attempted;
      ghost var v0, o0, off0 := ip.Now(), ip.owner, off;
      ip.ValidBasics();
      var i := 0;
      done, txs := 0, [];
      StartChunking(src, n);
      while i < n
        invariant 0 <= i && (i <= n || i == 0) && done == i && Chunking(v0, o0, off0, src, n, i, txs)
      {
        var w;
        w, i, txs := NextChunk(src, n, i, v0, o0, off0, txs);
        done := i;
        if w.None? {
          StarvedLacks(ip.sb, v0, ip.Now(), off0 / BSIZE, Upto(off0, Attempted(off0, n)));
          return None, done, txs;
        }
        if w.value < 0 {
          HadEnough(v0, o0, off0, src, n, i, txs);
          return Some(-1), done, txs;
        }
      }
      if n > 0 {
        HadEnough(v0, o0, off0, src, n, i, txs);
      }
      return Some(if i == n then n else -1), done, txs;
    }

    lemma StartChunking(src: seq<Byte>, n: int)
      requires ip.Valid() && HoleFree(ip.Now())
      ensures ip.ip.Ok() && Inv(ip.sb, ip.Now(), ip.owner) && Chunking(ip.Now(), ip.owner, off, src, n, 0, [])
    {
      hide Inv;
      ip.ValidBasics();
      ReachedStart(ip.sb, ip.Now(), ip.owner, off, src);
      NothingFed(ip.sb, ip.Now(), off / BSIZE);
    }

    /** When filewrite ends without panic, the blocks for all it tried to write were there. */
    lemma HadEnough(v0: View, o0: Owners, off0: nat, src: seq<Byte>, n: nat, i: nat, txs: seq<set<nat>>)
      requires Inv(ip.sb, v0, o0) && HoleFree(v0) && Chunking(v0, o0, off0, src, n, i, txs) && i <= n
      requires i == n || off0 > v0.ip.size || (off0 + n > MAXBYTES && off0 + i + CHUNK > MAXBYTES)
      ensures i == 0 || (off0 <= v0.ip.size && off0 + i <= MAXBYTES)
      ensures off0 <= v0.ip.size ==> !Lacks(ip.sb, v0, off0 / BSIZE, Upto(off0, Attempted(off0, n)))
    {
      hide Inv, Reached, Fed, Lacks, Upto;
      InvBasics(ip.sb, v0, o0);
      if off0 <= v0.ip.size {
        if i < n {
          AllAttempted(off0, n, i);
        }
        FedHasEnough(ip.sb, v0, ip.Now(), off0 / BSIZE, Upto(off0, i));
      }
    }
  }
}
