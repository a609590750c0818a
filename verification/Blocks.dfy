/** Disk blocks: BSIZE bytes, also read as little-endian 32-bit words. */
module Blocks {
  import opened Params

  const BSIZE: nat := 512
  const WORDS: nat := 128          // BSIZE / sizeof(uint)

  type Word = x: int | 0 <= x < WORD_MOD
  type Block = b: seq<Byte> | |b| == BSIZE witness seq(BSIZE, _ => 0)
  type Disk = seq<Block>

  /** A block cleared by bzero. */
  function ZeroBlock(): (b: Block)
    ensures forall i :: 0 <= i < BSIZE ==> b[i] == 0
  {
    seq(BSIZE, _ => 0)
  }

  /** The j-th word of a block, as x86 reads it through a uint pointer. */
  function WordAt(b: Block, j: nat): (w: Word)
    requires j < WORDS
  {
    var b0: int, b1: int, b2: int, b3: int := b[4 * j], b[4 * j + 1], b[4 * j + 2], b[4 * j + 3];
    b0 + 0x100 * b1 + 0x1_0000 * b2 + 0x100_0000 * b3
  }

  /** The block after a store through a uint pointer. */
  function SetWord(b: Block, j: nat, w: Word): (r: Block)
    requires j < WORDS
  {
    var b2 := b[4 * j := w % 0x100][4 * j + 1 := w / 0x100 % 0x100];
    b2[4 * j + 2 := w / 0x1_0000 % 0x100][4 * j + 3 := w / 0x100_0000]
  }

  lemma SplitWord(w: Word)
    ensures w == w % 0x100 + 0x100 * (w / 0x100 % 0x100)
              + 0x1_0000 * (w / 0x1_0000 % 0x100) + 0x100_0000 * (w / 0x100_0000)
  {
  }

  /** A stored word reads back, and every other word keeps its value. */
  lemma WordStored(b: Block, j: nat, w: Word, i: nat)
    requires j < WORDS && i < WORDS
    ensures WordAt(SetWord(b, j, w), i) == if i == j then w else WordAt(b, i)
  {
    SplitWord(w);
  }

  /** The number that bytes stand for, least significant byte first. */
  function Value(s: seq<Byte>): nat {
    if s == [] then 0 else s[0] + 0x100 * Value(s[1..])
  }

  /** Words are little-endian, when read and when stored. */
  lemma WordIsLittleEndian(b: Block, j: nat, w: Word)
    requires j < WORDS
    ensures WordAt(b, j) == Value(b[4 * j..4 * j + 4])
    ensures Value(SetWord(b, j, w)[4 * j..4 * j + 4]) == w
  {
    FourBytes(b[4 * j..4 * j + 4]);
    FourBytes(SetWord(b, j, w)[4 * j..4 * j + 4]);
    SplitWord(w);
  }

  lemma FourBytes(s: seq<Byte>)
    requires |s| == 4
    ensures var b0: int, b1: int, b2: int, b3: int := s[0], s[1], s[2], s[3];
            Value(s) == b0 + 0x100 * b1 + 0x1_0000 * b2 + 0x100_0000 * b3
  {
    assert s[1..][1..] == s[2..] && s[2..][1..] == s[3..] && s[3..][1..] == [];
    assert Value(s[3..]) == s[3];
    assert Value(s[2..]) == s[2] + 0x100 * Value(s[3..]);
    assert Value(s[1..]) == s[1] + 0x100 * Value(s[2..]);
  }

  /** A value below 256 goes into the first byte, a multiple of 256 leaves the first byte zero, and so on. */
  lemma BytePlaces(b: Block, j: nat, x: Byte)
    requires j < WORDS
    ensures var y: int := x;
            && SetWord(b, j, y)[4 * j..4 * j + 4] == [x, 0, 0, 0]
            && SetWord(b, j, 0x100 * y)[4 * j..4 * j + 4] == [0, x, 0, 0]
            && SetWord(b, j, 0x1_0000 * y)[4 * j..4 * j + 4] == [0, 0, x, 0]
            && SetWord(b, j, 0x100_0000 * y)[4 * j..4 * j + 4] == [0, 0, 0, x]
  {
  }

  lemma ZeroWords(j: nat)
    requires j < WORDS
    ensures WordAt(ZeroBlock(), j) == 0
  {
  }
}
