/** The locked file as a flat array of bytes: what the steps of bmap, writei and itrunc do to it. */
module FileBytes {
  import opened Params
  import opened Blocks
  import opened Bits
  import opened Inodes
  import opened Ownership
  import opened FileBlocks

  const MAXBYTES: nat := 71680     // MAXFILE * BSIZE

  /** v' is v after bmap made sure that block bn exists: the contents are the same. */
  ghost predicate Grew(sb: Super, v: View, v': View, owner: Owners, owner': Owners, bn: nat)
    requires sb.Ok() && |v.disk| == |v'.disk| == sb.size && v.ip.Ok() && v'.ip.Ok() && v.inum < sb.ninodes
  {
    && OthersUntouched(sb, v, v', owner) && OwnersKept(owner, owner', v.inum)
    && v'.ip == v.ip.(addrs := v'.ip.addrs)
    && DiskInode(sb, v'.disk, v.inum) == DiskInode(sb, v.disk, v.inum)
    && forall k :: 0 <= k < MAXFILE ==> BlockOf(v', k) == BlockOf(v, k) && Present(v', k) == (Present(v, k) || k == bn)
  }

  /** Other inodes own the same blocks as before. */
  ghost predicate OwnersKept(owner: Owners, owner': Owners, inum: nat) {
    && (forall r :: r in owner && owner[r].0 != inum ==> r in owner' && owner'[r] == owner[r])
    && (forall r :: r in owner' && owner'[r].0 != inum ==> r in owner && owner[r] == owner'[r])
  }

  lemma UntouchedTwice(sb: Super, v: View, v1: View, v2: View, owner: Owners, owner1: Owners)
    requires sb.Ok() && |v.disk| == |v1.disk| == |v2.disk| == sb.size
    requires OthersUntouched(sb, v, v1, owner) && OthersUntouched(sb, v1, v2, owner1)
    requires OwnersKept(owner, owner1, v.inum)
    ensures OthersUntouched(sb, v, v2, owner)
  {
    forall r | r in owner && owner[r].0 != v.inum && r < |v.disk| ensures v2.disk[r] == v.disk[r] {
      assert r in owner1 && owner1[r] == owner[r];
      assert v1.disk[r] == v.disk[r] && v2.disk[r] == v1.disk[r];
    }
  }

  lemma LinkGrew(sb: Super, v: View, owner: Owners, s: nat, r: Word)
    requires Inv(sb, v, owner) && s <= NDIRECT && v.ip.addrs[s] == 0 && r < sb.size && !Marked(sb, v.disk, r)
    ensures Inv(sb, Linked(sb, v, s, r), owner[r := (v.inum, s)])
    ensures Grew(sb, v, Linked(sb, v, s, r), owner, owner[r := (v.inum, s)], if s == NDIRECT then MAXFILE else s)
  {
    hide BitAt, DecodeInode, WordAt, BlockOf, Present, Allocated;
    LinkKeeps(sb, v, owner, s, r);
    FreshIsUnowned(sb, v, owner, r);
    AllocationEffect(sb, v.disk, r);
    var v' := Linked(sb, v, s, r);
    forall k | 0 <= k < MAXFILE
      ensures BlockOf(v', k) == BlockOf(v, k) && Present(v', k) == (Present(v, k) || SlotOf(k) == s)
    {
      LinkKeepsBlocks(sb, v, owner, s, r, k);
    }
  }

  lemma EnterGrew(sb: Super, v: View, owner: Owners, j: nat, r: Word)
    requires Inv(sb, v, owner) && j < NINDIRECT && 0 < v.ip.addrs[NDIRECT] < sb.size
    requires RefOf(v.disk, v.ip, NDIRECT + 1 + j) == 0 && r < sb.size && !Marked(sb, v.disk, r)
    ensures Inv(sb, Entered(sb, v, j, r), owner[r := (v.inum, NDIRECT + 1 + j)])
    ensures Grew(sb, v, Entered(sb, v, j, r), owner, owner[r := (v.inum, NDIRECT + 1 + j)], NDIRECT + j)
  {
    hide Inv, Entered, RefOf, Marked, BlockOf, Present, DiskInode, OthersUntouched;
    InvBasics(sb, v, owner);
    EnterKeeps(sb, v, owner, j, r);
    FreshIsUnowned(sb, v, owner, r);
    var v' := Entered(sb, v, j, r);
    forall k | 0 <= k < MAXFILE
      ensures BlockOf(v', k) == BlockOf(v, k) && Present(v', k) == (Present(v, k) || k == NDIRECT + j)
    {
      EnterKeepsBlocks(sb, v, owner, j, r, k);
    }
  }

  lemma PresentNeedsNoGrowth(sb: Super, v: View, owner: Owners, bn: nat)
    requires Inv(sb, v, owner) && bn < MAXFILE && RefAt(v, bn) != 0
    ensures Present(v, bn) && Grew(sb, v, v, owner, owner, bn)
  {
    OwnRefs(sb, v, owner, SlotOf(bn));
  }

  lemma GrewTwice(sb: Super, v: View, v1: View, v2: View, owner: Owners, owner1: Owners, owner2: Owners, bn: nat)
    requires sb.Ok() && |v.disk| == |v1.disk| == |v2.disk| == sb.size && v.ip.Ok() && v1.ip.Ok() && v2.ip.Ok()
    requires v.inum < sb.ninodes
    requires Grew(sb, v, v1, owner, owner1, MAXFILE) && Grew(sb, v1, v2, owner1, owner2, bn)
    ensures Grew(sb, v, v2, owner, owner2, bn)
  {
    UntouchedTwice(sb, v, v1, v2, owner, owner1);
  }

  // ----- the file as bytes

  function ByteAt(v: View, k: nat): Byte
    requires v.ip.Ok() && k < MAXBYTES
  {
    BlockOf(v, k / BSIZE)[k % BSIZE]
  }

  /** The contents of the locked file, as read(2) and write(2) define it: a flat array of bytes. */
  ghost function Content(v: View): (c: seq<Byte>)
    requires v.ip.Ok() && v.ip.size <= MAXBYTES
    ensures |c| == v.ip.size && forall k :: 0 <= k < |c| ==> c[k] == ByteAt(v, k)
  {
    Bytes(v, v.ip.size)
  }

  ghost function Bytes(v: View, n: nat): (c: seq<Byte>)
    requires v.ip.Ok() && n <= MAXBYTES
    ensures |c| == n && forall k :: 0 <= k < n ==> c[k] == ByteAt(v, k)
  {
    if n == 0 then [] else Bytes(v, n - 1) + [ByteAt(v, n - 1)]
  }

  /** Bytes that lie in one block. */
  lemma PieceOfBlock(v: View, o: nat, m: nat)
    requires v.ip.Ok() && v.ip.size <= MAXBYTES && 0 < m && o + m <= v.ip.size && o % BSIZE + m <= BSIZE
    ensures o / BSIZE < MAXFILE && Content(v)[o..o + m] == BlockOf(v, o / BSIZE)[o % BSIZE..o % BSIZE + m]
  {
    hide BlockOf, Content, Bytes;
    var piece := BlockOf(v, o / BSIZE)[o % BSIZE..o % BSIZE + m];
    forall k | 0 <= k < m ensures Content(v)[o..o + m][k] == piece[k] {
      assert (o + k) / BSIZE == o / BSIZE && (o + k) % BSIZE == o % BSIZE + k;
    }
  }

  /** Every block below the size exists. */
  ghost predicate HoleFree(v: View)
    requires v.ip.Ok()
  {
    v.ip.size <= MAXBYTES && forall bn :: 0 <= bn < MAXFILE && bn * BSIZE < v.ip.size ==> Present(v, bn)
  }

  function Spliced(b: Block, at: nat, piece: seq<Byte>): (r: Block)
    requires at + |piece| <= BSIZE
  {
    b[..at] + piece + b[at + |piece|..]
  }

  /** The n bytes from o on belong into one block of the file. */
  predicate WithinBlock(o: nat, n: nat) {
    o % BSIZE + n <= BSIZE
  }

  /** The file after the bytes of `piece` have been stored at offset o, within one block. */
  function Patched(v: View, o: nat, piece: seq<Byte>): (v': View)
    requires v.ip.Ok() && o < MAXBYTES && WithinBlock(o, |piece|) && Present(v, o / BSIZE)
    ensures |v'.disk| == |v.disk| && v'.ip == v.ip && v'.inum == v.inum
  {
    Stored(v, o / BSIZE, Spliced(BlockOf(v, o / BSIZE), o % BSIZE, piece))
  }

  lemma StoreSetsBytes(sb: Super, v: View, owner: Owners, o: nat, piece: seq<Byte>, k: nat)
    requires Inv(sb, v, owner) && o < MAXBYTES && WithinBlock(o, |piece|) && Present(v, o / BSIZE) && k < MAXBYTES
    ensures ByteAt(Patched(v, o, piece), k) == if o <= k < o + |piece| then piece[k - o] else ByteAt(v, k)
  {
    var bn := o / BSIZE;
    StoreSetsBlock(sb, v, owner, bn, Spliced(BlockOf(v, bn), o % BSIZE, piece), k / BSIZE);
    assert o == bn * BSIZE + o % BSIZE && k == k / BSIZE * BSIZE + k % BSIZE;
  }

  /** Write src over a flat array of bytes at off, extending it when it reaches beyond the end. */
  ghost function Overlay(c: seq<Byte>, off: nat, src: seq<Byte>): seq<Byte>
    requires off <= |c|
  {
    c[..off] + src + if off + |src| < |c| then c[off + |src|..] else []
  }

  /** Whether block bn of a file holds one of the n bytes from off on, and how many blocks do. */
  predicate Touched(off: nat, n: nat, bn: nat) {
    n > 0 && off / BSIZE <= bn && bn * BSIZE < off + n
  }

  function BlockCount(off: nat, n: nat): nat {
    if n == 0 then 0 else (off + n - 1) / BSIZE - off / BSIZE + 1
  }

  /** How many of those blocks a file without holes, reaching up to off, may lack: a started one exists. */
  function NewBlocks(off: nat, n: nat): int {
    BlockCount(off, n) - if n > 0 && off % BSIZE != 0 then 1 else 0
  }

  /** writei's next byte is its first or the first of a block. */
  predicate AtBoundary(off: nat, tot: nat) {
    tot == 0 || (off + tot) % BSIZE == 0
  }

  /** How many bytes writei's next iteration moves. */
  function Portion(o: nat, left: nat): nat {
    if left < BSIZE - o % BSIZE then left else BSIZE - o % BSIZE
  }

  /** An iteration starts at the offset or on a block boundary, and handles exactly one more block. */
  lemma OneMoreBlock(off: nat, tot: nat, n: nat)
    requires tot < n && AtBoundary(off, tot)
    ensures var m := Portion(off + tot, n - tot);
            && m > 0 && tot + m <= n && WithinBlock(off + tot, m)
            && (tot + m == n || (off + tot + m) % BSIZE == 0)
            && BlockCount(off, tot + m) == BlockCount(off, tot) + 1
  {
  }

  lemma TouchesOneMore(off: nat, tot: nat, n: nat, bn: nat)
    requires tot < n && AtBoundary(off, tot)
    ensures Touched(off, tot + Portion(off + tot, n - tot), bn) == (Touched(off, tot, bn) || bn == (off + tot) / BSIZE)
  {
  }

  /** Only the locked file has changed since v0, and of its inode only the block numbers. */
  ghost predicate OnlyThisFile(sb: Super, v0: View, o0: Owners, v: View, o: Owners)
    requires Inv(sb, v0, o0) && Inv(sb, v, o)
  {
    && OthersUntouched(sb, v0, v, o0) && OwnersKept(o0, o, v0.inum)
    && v.ip == v0.ip.(addrs := v.ip.addrs) && DiskInode(sb, v.disk, v0.inum) == DiskInode(sb, v0.disk, v0.inum)
  }

  ghost predicate BytesWritten(v0: View, v: View, off: nat, src: seq<Byte>, tot: nat)
    requires v0.ip.Ok() && v.ip.Ok() && tot <= |src|
  {
    forall k :: 0 <= k < MAXBYTES ==> ByteAt(v, k) == if off <= k < off + tot then src[k - off] else ByteAt(v0, k)
  }

  ghost predicate BlocksAdded(v0: View, v: View, off: nat, tot: nat)
    requires v0.ip.Ok() && v.ip.Ok()
  {
    && (forall bn :: 0 <= bn < MAXFILE ==> Present(v, bn) == (Present(v0, bn) || Touched(off, tot, bn)))
    && (off + tot <= v0.ip.size && HoleFree(v0) ==> v.ip == v0.ip)
  }

  /** From v0, exactly the first tot bytes of src have been written at off, and nothing else. */
  ghost predicate Progress(sb: Super, v0: View, o0: Owners, v: View, o: Owners, off: nat, src: seq<Byte>, tot: nat)
    requires Inv(sb, v0, o0) && tot <= |src|
  {
    && Inv(sb, v, o) && OnlyThisFile(sb, v0, o0, v, o) && BytesWritten(v0, v, off, src, tot)
    && BlocksAdded(v0, v, off, tot)
  }

  lemma PatchKeepsOthers(sb: Super, v0: View, o0: Owners, v: View, o: Owners, v1: View, o1: Owners, at: nat,
                         piece: seq<Byte>)
    requires Inv(sb, v0, o0) && Inv(sb, v, o) && Inv(sb, v1, o1) && OnlyThisFile(sb, v0, o0, v, o)
    requires at < MAXBYTES && WithinBlock(at, |piece|) && Grew(sb, v, v1, o, o1, at / BSIZE) && Present(v1, at / BSIZE)
    ensures Inv(sb, Patched(v1, at, piece), o1) && OnlyThisFile(sb, v0, o0, Patched(v1, at, piece), o1)
  {
    StoreKeeps(sb, v1, o1, at / BSIZE, Spliced(BlockOf(v1, at / BSIZE), at % BSIZE, piece));
    UntouchedTwice(sb, v0, v, v1, o0, o);
    UntouchedTwice(sb, v0, v1, Patched(v1, at, piece), o0, o1);
  }

  lemma GrewKeepsBytes(sb: Super, v: View, v1: View, o: Owners, o1: Owners, bn: nat, k: nat)
    requires Inv(sb, v, o) && Inv(sb, v1, o1) && Grew(sb, v, v1, o, o1, bn) && k < MAXBYTES
    ensures ByteAt(v1, k) == ByteAt(v, k)
  {
    assert k / BSIZE < MAXFILE && BlockOf(v1, k / BSIZE) == BlockOf(v, k / BSIZE);
  }

  lemma PatchWritesByte(sb: Super, v0: View, v: View, o: Owners, v1: View, o1: Owners, off: nat, src: seq<Byte>,
                        tot: nat, m: nat,
                        bn: nat, k: nat)
    requires v0.ip.Ok() && Inv(sb, v, o) && Inv(sb, v1, o1) && tot + m <= |src| && off + tot < MAXBYTES && k < MAXBYTES
    requires WithinBlock(off + tot, m) && BytesWritten(v0, v, off, src, tot) && bn == (off + tot) / BSIZE
    requires Grew(sb, v, v1, o, o1, bn) && Present(v1, bn)
    ensures ByteAt(Patched(v1, off + tot, src[tot..tot + m]), k)
            == if off <= k < off + (tot + m) then src[k - off] else ByteAt(v0, k)
  {
    hide Inv, Grew, ByteAt, Present, Patched, WithinBlock;
    StoreSetsBytes(sb, v1, o1, off + tot, src[tot..tot + m], k);
    GrewKeepsBytes(sb, v, v1, o, o1, bn, k);
  }

  lemma PatchWritesBytes(sb: Super, v0: View, v: View, o: Owners, v1: View, o1: Owners, off: nat, src: seq<Byte>,
                         tot: nat, m: nat)
    requires v0.ip.Ok() && Inv(sb, v, o) && Inv(sb, v1, o1) && tot + m <= |src| && off + |src| <= MAXBYTES
    requires off + tot < MAXBYTES
    requires WithinBlock(off + tot, m) && BytesWritten(v0, v, off, src, tot)
    requires var bn := (off + tot) / BSIZE; Grew(sb, v, v1, o, o1, bn) && Present(v1, bn)
    ensures BytesWritten(v0, Patched(v1, off + tot, src[tot..tot + m]), off, src, tot + m)
  {
    hide Inv, Grew, ByteAt, Present, Patched, WithinBlock;
    InvBasics(sb, v, o);
    InvBasics(sb, v1, o1);
    var bn, v2 := (off + tot) / BSIZE, Patched(v1, off + tot, src[tot..tot + m]);
    forall k | 0 <= k < MAXBYTES
      ensures ByteAt(v2, k) == if off <= k < off + (tot + m) then src[k - off] else ByteAt(v0, k)
    {
      PatchWritesByte(sb, v0, v, o, v1, o1, off, src, tot, m, bn, k);
    }
  }

  lemma PatchAddsBlocks(sb: Super, v0: View, v: View, o: Owners, v1: View, o1: Owners, off: nat, n: nat, tot: nat,
                        piece: seq<Byte>)
    requires v0.ip.Ok() && Inv(sb, v, o) && Inv(sb, v1, o1) && tot < n && off + n <= MAXBYTES && AtBoundary(off, tot)
    requires |piece| == Portion(off + tot, n - tot) && WithinBlock(off + tot, |piece|) && BlocksAdded(v0, v, off, tot)
    requires var bn := (off + tot) / BSIZE;
             Grew(sb, v, v1, o, o1, bn) && Present(v1, bn) && (Present(v, bn) ==> v1 == v)
    ensures BlocksAdded(v0, Patched(v1, off + tot, piece), off, tot + |piece|)
  {
    var bn, v2 := (off + tot) / BSIZE, Patched(v1, off + tot, piece);
    forall q | 0 <= q < MAXFILE ensures Present(v2, q) == (Present(v0, q) || Touched(off, tot + |piece|, q)) {
      StoreSetsBlock(sb, v1, o1, bn, Spliced(BlockOf(v1, bn), (off + tot) % BSIZE, piece), q);
      TouchesOneMore(off, tot, n, q);
    }
    if off + tot + |piece| <= v0.ip.size && HoleFree(v0) {
      OneMoreBlock(off, tot, n);
      assert bn * BSIZE <= off + tot && Present(v0, bn);
    }
  }

  /** One iteration of writei: bmap leads from v to v1, then the next piece of src is stored. */
  lemma PatchProgresses(sb: Super, v0: View, o0: Owners, v: View, o: Owners, v1: View, o1: Owners,
                        off: nat, src: seq<Byte>, tot: nat, m: nat)
    requires Inv(sb, v0, o0) && tot < |src| && off + |src| <= MAXBYTES && Progress(sb, v0, o0, v, o, off, src, tot)
    requires AtBoundary(off, tot)
    requires m == Portion(off + tot, |src| - tot) && WithinBlock(off + tot, m) && tot + m <= |src|
    requires var bn := (off + tot) / BSIZE;
             Inv(sb, v1, o1) && Grew(sb, v, v1, o, o1, bn) && Present(v1, bn) && (Present(v, bn) ==> v1 == v)
    ensures var v2 := Patched(v1, off + tot, src[tot..tot + m]);
            Inv(sb, v2, o1) && Progress(sb, v0, o0, v2, o1, off, src, tot + m)
  {
    hide OnlyThisFile, BytesWritten, BlocksAdded, Grew, Inv, Portion, WithinBlock, AtBoundary;
    InvBasics(sb, v0, o0);
    PatchKeepsOthers(sb, v0, o0, v, o, v1, o1, off + tot, src[tot..tot + m]);
    PatchWritesBytes(sb, v0, v, o, v1, o1, off, src, tot, m);
    PatchAddsBlocks(sb, v0, v, o, v1, o1, off, |src|, tot, src[tot..tot + m]);
  }

  // ----- the end of writei

  /** The file after its size has been set and iupdate has run. */
  function Resized(sb: Super, v: View, size: Word): View
    requires sb.Ok() && |v.disk| == sb.size && v.inum < sb.ninodes && v.ip.Ok()
  {
    Updated(sb, v.(ip := v.ip.(size := size)))
  }

  lemma ResizeAndUpdate(sb: Super, v: View, o: Owners, size: Word)
    requires Inv(sb, v, o)
    ensures var v' := Resized(sb, v, size);
            Inv(sb, v', o) && OthersUntouched(sb, v, v', o) && DiskInode(sb, v'.disk, v.inum) == v'.ip
  {
    hide BitAt, DecodeInode, WordAt, EncodeInode;
    ResizeKeeps(sb, v, o, size);
    UpdateKeeps(sb, v.(ip := v.ip.(size := size)), o);
  }

  /** v and v' have the same blocks with the same contents. */
  ghost predicate SameBlocks(v: View, v': View)
    requires v.ip.Ok() && v'.ip.Ok()
  {
    forall bn :: 0 <= bn < MAXFILE ==> BlockOf(v', bn) == BlockOf(v, bn) && Present(v', bn) == Present(v, bn)
  }

  lemma ResizeKeepsBlocks(sb: Super, v: View, o: Owners, size: Word)
    requires Inv(sb, v, o)
    ensures SameBlocks(v, Resized(sb, v, size))
  {
    var v' := Resized(sb, v, size);
    ResizeKeeps(sb, v, o, size);
    forall bn | 0 <= bn < MAXFILE ensures BlockOf(v', bn) == BlockOf(v, bn) && Present(v', bn) == Present(v, bn) {
      UpdateKeepsBlocks(sb, v.(ip := v.ip.(size := size)), o, bn);
    }
  }

  /** All that writei does to the file and its surroundings: v0 becomes v. */
  ghost predicate Wrote(sb: Super, v0: View, o0: Owners, v: View, o: Owners, off: nat, src: seq<Byte>)
    requires Inv(sb, v0, o0) && HoleFree(v0) && off <= v0.ip.size
  {
    && Inv(sb, v, o) && OthersUntouched(sb, v0, v, o0) && OwnersKept(o0, o, v0.inum)
    && HoleFree(v) && Content(v) == Overlay(Content(v0), off, src)
    && v.ip == v0.ip.(addrs := v.ip.addrs, size := v.ip.size)
    && (DiskInode(sb, v0.disk, v0.inum) == v0.ip ==> DiskInode(sb, v.disk, v.inum) == v.ip)
  }

  lemma WrittenContent(v0: View, v: View, v': View, off: nat, src: seq<Byte>)
    requires v0.ip.Ok() && v.ip.Ok() && v'.ip.Ok() && HoleFree(v0) && off <= v0.ip.size && off + |src| <= MAXBYTES
    requires BytesWritten(v0, v, off, src, |src|) && SameBlocks(v, v')
    requires v'.ip.size == if off + |src| > v0.ip.size then off + |src| else v0.ip.size
    ensures Content(v') == Overlay(Content(v0), off, src)
  {
    hide BlockOf, Present, Bytes;
    var c, d := Content(v'), Overlay(Content(v0), off, src);
    forall k | 0 <= k < |c| ensures c[k] == d[k] {
      assert k / BSIZE < MAXFILE && ByteAt(v', k) == ByteAt(v, k);
    }
  }

  lemma WrittenHoleFree(v0: View, v: View, v': View, off: nat, n: nat)
    requires v0.ip.Ok() && v.ip.Ok() && v'.ip.Ok() && HoleFree(v0) && off <= v0.ip.size && off + n <= MAXBYTES
    requires BlocksAdded(v0, v, off, n) && SameBlocks(v, v')
    requires v'.ip.size == if off + n > v0.ip.size then off + n else v0.ip.size
    ensures HoleFree(v')
  {
    hide BlockOf, Present;
    forall bn | 0 <= bn < MAXFILE && bn * BSIZE < v'.ip.size ensures Present(v', bn) {
      assert bn * BSIZE < v0.ip.size || Touched(off, n, bn);
    }
  }

  /** The last test of writei, and what it leaves behind. */
  lemma WriteFinished(sb: Super, v0: View, o0: Owners, v: View, o: Owners, off: nat, src: seq<Byte>)
    requires Inv(sb, v0, o0) && HoleFree(v0) && off <= v0.ip.size && off + |src| <= MAXBYTES
    requires Inv(sb, v, o) && Progress(sb, v0, o0, v, o, off, src, |src|)
    ensures v.ip.size == v0.ip.size
    ensures off + |src| <= v.ip.size ==> Wrote(sb, v0, o0, v, o, off, src)
    ensures off + |src| > v.ip.size ==>
              var v' := Resized(sb, v, off + |src|); Inv(sb, v', o) && Wrote(sb, v0, o0, v', o, off, src)
  {
    hide BytesWritten, BlocksAdded, SameBlocks, Content, HoleFree, Inv;
    if off + |src| <= v.ip.size {
      WriteInPlace(sb, v0, o0, v, o, off, src);
    } else {
      WriteExtends(sb, v0, o0, v, o, off, src);
    }
  }

  lemma WriteInPlace(sb: Super, v0: View, o0: Owners, v: View, o: Owners, off: nat, src: seq<Byte>)
    requires Inv(sb, v0, o0) && HoleFree(v0) && off + |src| <= v0.ip.size
    requires Inv(sb, v, o) && Progress(sb, v0, o0, v, o, off, src, |src|)
    ensures Wrote(sb, v0, o0, v, o, off, src)
  {
    hide BytesWritten, BlockOf, Present, Inv, Content;
    InvBasics(sb, v0, o0);
    InvBasics(sb, v, o);
    WrittenContent(v0, v, v, off, src);
    WrittenHoleFree(v0, v, v, off, |src|);
  }

  lemma WriteExtends(sb: Super, v0: View, o0: Owners, v: View, o: Owners, off: nat, src: seq<Byte>)
    requires Inv(sb, v0, o0) && HoleFree(v0) && off <= v0.ip.size < off + |src| <= MAXBYTES
    requires Inv(sb, v, o) && Progress(sb, v0, o0, v, o, off, src, |src|)
    ensures Wrote(sb, v0, o0, Resized(sb, v, off + |src|), o, off, src)
  {
    hide BytesWritten, BlocksAdded, SameBlocks, Inv, Content, HoleFree, Updated, OthersUntouched, OwnersKept, Overlay;
    InvBasics(sb, v0, o0);
    InvBasics(sb, v, o);
    var v' := Resized(sb, v, off + |src|);
    ResizeAndUpdate(sb, v, o, off + |src|);
    ResizeKeepsBlocks(sb, v, o, off + |src|);
    UntouchedTwice(sb, v0, v, v', o0, o);
    WrittenContent(v0, v, v', off, src);
    WrittenHoleFree(v0, v, v', off, |src|);
  }

  /** A write into the middle of a block finds that block allocated. */
  lemma FirstBlockPresent(sb: Super, v0: View, o0: Owners, v: View, o: Owners, off: nat, src: seq<Byte>, tot: nat)
    requires Inv(sb, v0, o0) && HoleFree(v0) && off <= v0.ip.size && tot < |src| && off + |src| <= MAXBYTES
    requires Progress(sb, v0, o0, v, o, off, src, tot)
    ensures v.ip.Ok() && (off % BSIZE != 0 ==> Present(v, off / BSIZE))
  {
    assert off / BSIZE * BSIZE <= off;
  }

  /** Nothing written yet. */
  lemma NoProgress(sb: Super, v: View, o: Owners, off: nat, src: seq<Byte>)
    requires Inv(sb, v, o)
    ensures Progress(sb, v, o, v, o, off, src, 0)
  {
  }

  // ----- other files

  /** Nothing that belongs to another inode has changed, so its file reads as before. */
  lemma OtherFilesSame(sb: Super, v: View, v': View, owner: Owners, j: nat)
    requires Inv(sb, v, owner) && |v'.disk| == sb.size && v'.ip.Ok() && OthersUntouched(sb, v, v', owner)
    requires j < sb.ninodes && j != v.inum
    ensures var u, u' := Locked(sb, v.disk, j), Locked(sb, v'.disk, j);
            u'.ip == u.ip && SameBlocks(u, u') && (u.ip.size <= MAXBYTES ==> Content(u') == Content(u))
  {
    var u, u' := Locked(sb, v.disk, j), Locked(sb, v'.disk, j);
    forall bn | 0 <= bn < MAXFILE ensures BlockOf(u', bn) == BlockOf(u, bn) && Present(u', bn) == Present(u, bn) {
      OtherRefsSame(sb, v, v', owner, j, SlotOf(bn));
      OtherBlock(sb, v, owner, j, SlotOf(bn));
    }
    if u.ip.size <= MAXBYTES {
      SameContent(u, u');
    }
  }

  lemma OtherBlock(sb: Super, v: View, owner: Owners, j: nat, s: nat)
    requires Inv(sb, v, owner) && j < sb.ninodes && j != v.inum && s < SLOTS
    ensures var r := RefOf(v.disk, InodeOf(sb, v, j), s); r != 0 ==> r in owner && owner[r].0 == j && r < |v.disk|
  {
    assert RefOwned(sb, v, owner, j, s);
    var r := RefOf(v.disk, InodeOf(sb, v, j), s);
    assert r != 0 ==> OwnedOk(sb, v, owner, r);
  }

  lemma SameContent(u: View, u': View)
    requires u.ip.Ok() && u'.ip.Ok() && SameBlocks(u, u') && u.ip.size == u'.ip.size <= MAXBYTES
    ensures Content(u') == Content(u)
  {
    hide BlockOf, Present, Bytes;
    forall k | 0 <= k < u.ip.size ensures Content(u')[k] == Content(u)[k] {
      assert k / BSIZE < MAXFILE;
    }
  }
}
