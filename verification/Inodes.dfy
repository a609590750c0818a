/** The superblock's layout, the inodes on disk and the block references in them. */
module Inodes {
  import opened Params
  import opened Blocks
  import opened Bits

  const NDIRECT: nat := 12
  const NINDIRECT: nat := 128      // BSIZE / sizeof(uint)
  const MAXFILE: nat := 140        // NDIRECT + NINDIRECT
  const IPB: nat := 8              // inodes per block
  const INODE_WORDS: nat := 16     // sizeof(struct dinode) / sizeof(uint)
  const SLOTS: nat := 141          // 12 direct, 1 indirect, 128 through the indirect block
  const HALF: int := 0x1_0000

  /** The superblock fields used here. `datastart` is the first block after the free map. */
  datatype Super = Super(size: nat, ninodes: nat, inodestart: nat, bmapstart: nat, datastart: nat) {
    predicate Ok() {
      && inodestart + ninodes / IPB + 1 <= bmapstart
      && bmapstart + size / BPB + 1 <= datastart <= size < WORD_MOD
      && 0 < inodestart
    }

    function Iblock(i: nat): nat {
      i / IPB + inodestart
    }

    function Bblock(b: nat): nat {
      b / BPB + bmapstart
    }
  }

  /** struct inode and struct dinode: four shorts, the size in bytes, thirteen block numbers. */
  datatype Inode = Inode(kind: int, major: int, minor: int, nlink: int, size: Word, addrs: seq<Word>) {
    predicate Ok() {
      && |addrs| == NDIRECT + 1
      && 0 <= kind < HALF && 0 <= major < HALF && 0 <= minor < HALF && 0 <= nlink < HALF
    }
  }

  // ----- inodes in their blocks

  function FieldAt(b: Block, slot: nat, j: nat): Word
    requires slot < IPB && j < INODE_WORDS
  {
    WordAt(b, INODE_WORDS * slot + j)
  }

  function DecodeInode(b: Block, slot: nat): (r: Inode)
    requires slot < IPB
    ensures r.Ok()
  {
    Inode(FieldAt(b, slot, 0) % HALF, FieldAt(b, slot, 0) / HALF,
          FieldAt(b, slot, 1) % HALF, FieldAt(b, slot, 1) / HALF,
          FieldAt(b, slot, 2), seq<Word>(NDIRECT + 1, j requires 0 <= j <= NDIRECT => FieldAt(b, slot, 3 + j)))
  }

  /** The words of an encoded inode. */
  function InodeWord(x: Inode, j: nat): Word
    requires x.Ok() && j < INODE_WORDS
  {
    if j == 0 then x.kind + HALF * x.major
    else if j == 1 then x.minor + HALF * x.nlink
    else if j == 2 then x.size
    else x.addrs[j - 3]
  }

  /** The block after the first k words of inode x have been stored at its slot. */
  function PutWords(b: Block, slot: nat, x: Inode, k: nat): (r: Block)
    requires slot < IPB && x.Ok() && k <= INODE_WORDS
  {
    if k == 0 then b else SetWord(PutWords(b, slot, x, k - 1), INODE_WORDS * slot + k - 1, InodeWord(x, k - 1))
  }

  function EncodeInode(b: Block, slot: nat, x: Inode): Block
    requires slot < IPB && x.Ok()
  {
    PutWords(b, slot, x, INODE_WORDS)
  }

  lemma {:induction false} WordsPut(b: Block, slot: nat, x: Inode, k: nat, j: nat)
    requires slot < IPB && x.Ok() && k <= INODE_WORDS && j < WORDS
    ensures WordAt(PutWords(b, slot, x, k), j) ==
            if INODE_WORDS * slot <= j < INODE_WORDS * slot + k then InodeWord(x, j - INODE_WORDS * slot)
            else WordAt(b, j)
  {
    if k > 0 {
      WordsPut(b, slot, x, k - 1, j);
      WordStored(PutWords(b, slot, x, k - 1), INODE_WORDS * slot + k - 1, InodeWord(x, k - 1), j);
    }
  }

  lemma WordOfStored(b: Block, slot: nat, x: Inode, i: nat, j: nat)
    requires slot < IPB && i < IPB && x.Ok() && j < INODE_WORDS
    ensures FieldAt(EncodeInode(b, slot, x), i, j) == if i == slot then InodeWord(x, j) else FieldAt(b, i, j)
  {
    WordsPut(b, slot, x, INODE_WORDS, INODE_WORDS * i + j);
  }

  /** iupdate then ilock gives the inode back, and the other inodes of the block are untouched. */
  lemma InodeStored(b: Block, slot: nat, x: Inode, i: nat)
    requires slot < IPB && i < IPB && x.Ok()
    ensures DecodeInode(EncodeInode(b, slot, x), i) == if i == slot then x else DecodeInode(b, i)
  {
    hide FieldAt, PutWords, EncodeInode;
    var y, z := DecodeInode(EncodeInode(b, slot, x), i), if i == slot then x else DecodeInode(b, i);
    WordOfStored(b, slot, x, i, 0);
    WordOfStored(b, slot, x, i, 1);
    WordOfStored(b, slot, x, i, 2);
    forall j | 0 <= j <= NDIRECT ensures y.addrs[j] == z.addrs[j] {
      WordOfStored(b, slot, x, i, 3 + j);
    }
    assert y.addrs == z.addrs;
  }
}
