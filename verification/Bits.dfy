/** The bits of bytes and of free-map blocks. */
module Bits {
  import opened Blocks

  /** x & (1 << j), x | (1 << j) and x & ~(1 << j), bit by bit. */
  predicate BitOf(x: nat, j: nat) {
    if j == 0 then x % 2 == 1 else BitOf(x / 2, j - 1)
  }

  function Raised(x: nat, j: nat): nat {
    if j == 0 then x - x % 2 + 1 else 2 * Raised(x / 2, j - 1) + x % 2
  }

  function Lowered(x: nat, j: nat): nat {
    if j == 0 then x - x % 2 else 2 * Lowered(x / 2, j - 1) + x % 2
  }

  function TwoTo(n: nat): nat {
    if n == 0 then 1 else 2 * TwoTo(n - 1)
  }

  lemma {:induction false} BitsFit(x: nat, j: nat, n: nat)
    requires x < TwoTo(n) && j < n
    ensures Raised(x, j) < TwoTo(n) && Lowered(x, j) < TwoTo(n)
  {
    if j > 0 {
      BitsFit(x / 2, j - 1, n - 1);
    }
  }

  lemma {:induction false} BitStored(x: nat, j: nat, k: nat)
    ensures BitOf(Raised(x, j), k) == (k == j || BitOf(x, k))
    ensures BitOf(Lowered(x, j), k) == (k != j && BitOf(x, k))
  {
    if j > 0 {
      assert Raised(x, j) / 2 == Raised(x / 2, j - 1) && Lowered(x, j) / 2 == Lowered(x / 2, j - 1);
      if k > 0 {
        BitStored(x / 2, j - 1, k - 1);
      }
    } else {
      assert Raised(x, j) / 2 == x / 2 && Lowered(x, j) / 2 == x / 2;
    }
  }

  const BPB: nat := 4096           // bits per block

  /** Bit i of a block of the free map. */
  predicate BitAt(b: Block, i: nat)
    requires i < BPB
  {
    BitOf(b[i / 8], i % 8)
  }

  function SetBit(b: Block, i: nat): (r: Block)
    requires i < BPB
  {
    BitsFit(b[i / 8], i % 8, 8);
    b[i / 8 := Raised(b[i / 8], i % 8)]
  }

  function ClearBit(b: Block, i: nat): (r: Block)
    requires i < BPB
  {
    BitsFit(b[i / 8], i % 8, 8);
    b[i / 8 := Lowered(b[i / 8], i % 8)]
  }

  /** Setting or clearing one bit leaves every other bit of the block alone. */
  lemma BitAtStored(b: Block, i: nat, k: nat)
    requires i < BPB && k < BPB
    ensures BitAt(SetBit(b, i), k) == (k == i || BitAt(b, k))
    ensures BitAt(ClearBit(b, i), k) == (k != i && BitAt(b, k))
  {
    if i / 8 == k / 8 {
      BitStored(b[i / 8], i % 8, k % 8);
    }
  }
}
