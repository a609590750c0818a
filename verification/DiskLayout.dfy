/** Where things are on the disk, byte by byte: the structures of fs.h and log.c as a machine with little-endian
    words lays them out. */
module DiskLayout {
  import opened Params
  import opened Blocks
  import opened Bits
  import opened Inodes
  import opened Ownership
  import opened FileBlocks
  import opened FileBytes
  import opened Recovery

  const INODE_BYTES: nat := 64     // sizeof(struct dinode)

  lemma TwoHalves(s: seq<Byte>)
    requires |s| == 4
    ensures Value(s) % HALF == Value(s[..2]) && Value(s) / HALF == Value(s[2..])
  {
    FourBytes(s);
    TwoBytes(s[..2]);
    TwoBytes(s[2..]);
  }

  lemma TwoBytes(s: seq<Byte>)
    requires |s| == 2
    ensures var b0: int, b1: int := s[0], s[1]; Value(s) == b0 + 0x100 * b1
  {
    assert s[1..][1..] == [];
    assert Value(s[1..]) == s[1];
  }

  /** The log header: the count, then the block numbers, four bytes each. */
  lemma HeaderBytes(h: Block, i: nat)
    requires HeaderCount(h) <= LOGSIZE && i < HeaderCount(h)
    ensures HeaderCount(h) == Value(h[..4]) && Targets(h)[i] == Value(h[4 * i + 4..4 * i + 8])
  {
    hide WordAt, Value;
    WordIsLittleEndian(h, 0, 0);
    WordIsLittleEndian(h, 1 + i, 0);
  }

  /** An inode: four shorts, the size, thirteen block numbers. */
  lemma InodeBytes(b: Block, slot: nat, j: nat)
    requires slot < IPB && j <= NDIRECT
    ensures var x, o := DecodeInode(b, slot), INODE_BYTES * slot;
            && x.kind == Value(b[o..o + 2]) && x.major == Value(b[o + 2..o + 4])
            && x.minor == Value(b[o + 4..o + 6]) && x.nlink == Value(b[o + 6..o + 8])
            && x.size == Value(b[o + 8..o + 12])
            && x.addrs[j] == Value(b[o + 12 + 4 * j..o + 16 + 4 * j])
  {
    hide WordAt, Value;
    var w, o := INODE_WORDS * slot, INODE_BYTES * slot;
    WordIsLittleEndian(b, w, 0);
    WordIsLittleEndian(b, w + 1, 0);
    WordIsLittleEndian(b, w + 2, 0);
    WordIsLittleEndian(b, w + 3 + j, 0);
    TwoHalves(b[o..o + 4]);
    TwoHalves(b[o + 4..o + 8]);
    assert b[o..o + 4][..2] == b[o..o + 2] && b[o..o + 4][2..] == b[o + 2..o + 4];
    assert b[o + 4..o + 8][..2] == b[o + 4..o + 6] && b[o + 4..o + 8][2..] == b[o + 6..o + 8];
  }

  lemma {:induction false} BitIsPlace(x: nat, j: nat)
    ensures TwoTo(j) > 0 && (BitOf(x, j) <==> x / TwoTo(j) % 2 == 1)
    decreases j
  {
    if j > 0 {
      BitIsPlace(x / 2, j - 1);
      HalfAgain(x, TwoTo(j - 1));
    }
  }

  lemma HalfAgain(x: nat, t: nat)
    requires t > 0
    ensures x / 2 / t == x / (2 * t)
  {
    var q, r := x / 2 / t, x / 2 % t;
    assert x / 2 == q * t + r && x == 2 * (x / 2) + x % 2;
    assert x == q * (2 * t) + (2 * r + x % 2) && 0 <= 2 * r + x % 2 < 2 * t;
    Quotient(x, 2 * t, q, 2 * r + x % 2);
  }

  lemma Quotient(x: nat, d: nat, q: nat, r: nat)
    requires d > 0 && x == q * d + r && r < d
    ensures x / d == q
  {
    var m, k := x / d, q - x / d;
    assert x == m * d + x % d && 0 <= x % d < d;
    assert k * d == q * d - m * d;
    if k >= 1 {
      AtLeastOnce(k, d);
    } else if k <= -1 {
      AtLeastOnce(-k, d);
    }
  }

  lemma AtLeastOnce(k: nat, d: nat)
    requires k >= 1
    ensures k * d >= d
  {
  }

  /** Bit i of the free map is the bit of value 2^(i % 8) in byte i / 8. */
  lemma MapBits(b: Block, i: nat)
    requires i < BPB
    ensures TwoTo(i % 8) > 0 && (BitAt(b, i) <==> b[i / 8] / TwoTo(i % 8) % 2 == 1)
  {
    BitIsPlace(b[i / 8], i % 8);
  }

  /** Inodes lie one after the other from inodestart on, and so do the bits of the free map from bmapstart on. */
  lemma Consecutive(sb: Super, i: nat, b: nat)
    ensures sb.Iblock(i) * BSIZE + i % IPB * INODE_BYTES == sb.inodestart * BSIZE + i * INODE_BYTES
    ensures sb.Bblock(b) * (BSIZE * 8) + b % BPB == sb.bmapstart * (BSIZE * 8) + b
  {
    assert i == i / IPB * IPB + i % IPB && b == b / BPB * BPB + b % BPB;
  }

  /** Byte k of a file lies in the disk block that the inode, or else the indirect block, names for it. */
  lemma FileBytesPlace(v: View, k: nat)
    requires v.ip.Ok() && k < v.ip.size <= MAXBYTES
    ensures var bn := k / BSIZE;
            && bn < MAXFILE
            && (bn < NDIRECT && 0 < v.ip.addrs[bn] < |v.disk| ==> Content(v)[k] == v.disk[v.ip.addrs[bn]][k % BSIZE])
            && (NDIRECT <= bn && 0 < v.ip.addrs[NDIRECT] < |v.disk| ==>
                  var e := 4 * (bn - NDIRECT);
                  var a := Value(v.disk[v.ip.addrs[NDIRECT]][e..e + 4]);
                  0 < a < |v.disk| ==> Content(v)[k] == v.disk[a][k % BSIZE])
  {
    hide Bytes, WordAt, Value;
    var bn := k / BSIZE;
    if NDIRECT <= bn && 0 < v.ip.addrs[NDIRECT] < |v.disk| {
      WordIsLittleEndian(v.disk[v.ip.addrs[NDIRECT]], bn - NDIRECT, 0);
    }
  }
}
