/** The on-disk free bitmap of fs.c: one bit per block, eight to a byte, BPB to a sector. */
module Bitmap {
  import opened Blocks

  const BPB: nat := BSIZE * 8
  const IPB: nat := 8           // inodes per block

  /** The superblock fields the allocator uses, and where data blocks lie. */
  datatype Super = Super(size: nat, ninodes: nat, lo: nat, hi: nat)

  /** IBLOCK(i) of fs.h. */
  function IBlock(i: nat): (s: nat)
  {
    i / IPB + 2
  }

  /** BBLOCK(b, ninodes) of fs.h. */
  function BBlock(sb: Super, b: nat): (s: nat)
  {
    b / BPB + sb.ninodes / IPB + 3
  }

  /** Bitmap blocks lie below the data area, which lies inside the volume. */
  predicate Layout(sb: Super, d: Disk)
  {
    && 0 < sb.size <= |d| && sb.size < 0x8000_0000
    && BBlock(sb, sb.size - 1) < sb.lo <= sb.hi <= sb.size
  }

  /** (x & (1 << k)) != 0. */
  predicate Bit(x: nat, k: nat)
  {
    if k == 0 then x % 2 == 1 else Bit(x / 2, k - 1)
  }

  /** The weights 2^k of the bits below n that are set. */
  function Weights(x: nat, n: nat): (r: nat)
  {
    if n == 0 then 0 else Weights(x, n - 1) + if Bit(x, n - 1) then Pow2(n - 1) else 0
  }

  /** They make up the number. */
  lemma {:induction false} SumOfBits(x: nat, n: nat)
    requires x < Pow2(n)
    ensures Weights(x, n) == x
    decreases n
  {
    if n > 0 {
      SumOfBits(x / 2, n - 1);
      LowBit(x, n);
    }
  }

  lemma {:induction false} LowBit(x: nat, n: nat)
    requires n > 0
    ensures Weights(x, n) == x % 2 + 2 * Weights(x / 2, n - 1)
    decreases n
  {
    if n > 1 { LowBit(x, n - 1); } else { assert Weights(x, 0) == 0 && Weights(x / 2, 0) == 0; }
  }

  /** x | (1 << k), or x & ~(1 << k). */
  function PutBit(x: nat, k: nat, on: bool): (r: nat)
    ensures Bit(r, k) == on
  {
    if k == 0 then x / 2 * 2 + (if on then 1 else 0) else PutBit(x / 2, k - 1, on) * 2 + x % 2
  }

  lemma {:induction false} PutBitOthers(x: nat, k: nat, on: bool, j: nat)
    requires j != k
    ensures Bit(PutBit(x, k, on), j) == Bit(x, j)
  {
    var r := PutBit(x, k, on);
    if k == 0 {
      assert r / 2 == x / 2;
    } else {
      assert r / 2 == PutBit(x / 2, k - 1, on) && r % 2 == x % 2;
      if j > 0 { PutBitOthers(x / 2, k - 1, on, j - 1); }
    }
  }

  function Pow2(n: nat): (p: nat)
    ensures p > 0
  {
    if n == 0 then 1 else 2 * Pow2(n - 1)
  }

  /** A bit below n keeps a number below 2^n. */
  lemma {:induction false} PutBitBound(x: nat, k: nat, on: bool, n: nat)
    requires k < n && x < Pow2(n)
    ensures PutBit(x, k, on) < Pow2(n)
  {
    if k > 0 {
      PutBitBound(x / 2, k - 1, on, n - 1);
    }
  }

  function PutByteBit(x: Byte, k: nat, on: bool): (r: Byte)
    requires k < 8
  {
    assert Pow2(8) == 256;
    PutBitBound(x, k, on, 8);
    PutBit(x, k, on)
  }

  predicate Marked(sb: Super, d: Disk, b: nat)
    requires Layout(sb, d) && b < sb.size
  {
    BBlockBound(sb, b);
    Bit(ByteAt(d[BBlock(sb, b)], b % BPB / 8), b % BPB % 8)
  }

  /** Byte i of the sectors taken as one row of bytes. */
  function DiskByte(d: Disk, i: nat): (x: Byte)
    requires i / BSIZE < |d|
  {
    ByteAt(d[i / BSIZE], i % BSIZE)
  }

  /** The bitmap is one row of bits: bit b is bit b % 8 of its byte b / 8. */
  lemma {:induction false} OneRow(sb: Super, d: Disk, b: nat)
    requires Layout(sb, d) && b < sb.size
    ensures (BBlock(sb, 0) * BSIZE + b / 8) / BSIZE == BBlock(sb, b) < |d|
    ensures Marked(sb, d, b) == Bit(DiskByte(d, BBlock(sb, 0) * BSIZE + b / 8), b % 8)
  {
    BBlockBound(sb, b);
    assert b / 8 == b / BPB * BSIZE + b % BPB / 8 && b % BPB / 8 < BSIZE && b % BPB % 8 == b % 8;
    assert BBlock(sb, 0) * BSIZE + b / 8 == BBlock(sb, b) * BSIZE + b % BPB / 8;
  }

  lemma BBlockBound(sb: Super, b: nat)
    requires b < sb.size
    ensures BBlock(sb, b) <= BBlock(sb, sb.size - 1)
  {
  }

  /** The disk with the bit of block b set or cleared. */
  function Mark(sb: Super, d: Disk, b: nat, on: bool): (r: Disk)
    requires Layout(sb, d) && b < sb.size
    ensures Layout(sb, r) && |r| == |d| && forall s :: sb.lo <= s < |d| ==> r[s] == d[s]
  {
    BBlockBound(sb, b);
    var s, j := BBlock(sb, b), b % BPB / 8;
    d[s := Splice(d[s], j, [PutByteBit(ByteAt(d[s], j), b % BPB % 8, on)])]
  }

  /** Setting or clearing one bit changes the state of one block. */
  lemma MarkChangesOne(sb: Super, d: Disk, b: nat, on: bool, c: nat)
    requires Layout(sb, d) && b < sb.size && c < sb.size
    ensures Marked(sb, Mark(sb, d, b, on), c) == (if c == b then on else Marked(sb, d, c))
  {
    BBlockBound(sb, b);
    BBlockBound(sb, c);
    var s, j := BBlock(sb, b), b % BPB / 8;
    if BBlock(sb, c) == s && c % BPB / 8 == j && c != b {
      assert c % BPB % 8 != b % BPB % 8;
      PutBitOthers(ByteAt(d[s], j), b % BPB % 8, on, c % BPB % 8);
    }
  }

  /** The on-disk bits are the set `used`. */
  ghost predicate BitsAre(sb: Super, d: Disk, used: set<nat>)
  {
    && Layout(sb, d)
    && (forall b :: b in used ==> b < sb.size)
    && (forall b {:trigger Marked(sb, d, b)} :: 0 <= b < sb.size ==> (Marked(sb, d, b) <==> b in used))
  }

  /** Flipping a bit adds or removes one element. */
  lemma MarkRefines(sb: Super, d: Disk, used: set<nat>, b: nat, on: bool)
    requires BitsAre(sb, d, used) && b < sb.size
    ensures BitsAre(sb, Mark(sb, d, b, on), if on then used + {b} else used - {b})
  {
    var e := Mark(sb, d, b, on);
    forall c {:trigger Marked(sb, e, c)} | 0 <= c < sb.size
      ensures Marked(sb, e, c) == (if c == b then on else Marked(sb, d, c))
    {
      MarkChangesOne(sb, d, b, on, c);
    }
    BitsFrom(sb, d, e, used, b, on);
  }

  lemma BitsFrom(sb: Super, d: Disk, e: Disk, used: set<nat>, b: nat, on: bool)
    requires BitsAre(sb, d, used) && b < sb.size && Layout(sb, e)
    requires forall c {:trigger Marked(sb, e, c)} :: 0 <= c < sb.size ==> Marked(sb, e, c) == (if c == b then on else Marked(sb, d, c))
    ensures BitsAre(sb, e, if on then used + {b} else used - {b})
  {
  }

  /** The bits depend on the bitmap blocks only, which lie below the data area. */
  lemma BitsFrame(sb: Super, d: Disk, e: Disk, used: set<nat>)
    requires BitsAre(sb, d, used) && |e| == |d| && forall s :: 0 <= s < sb.lo ==> e[s] == d[s]
    ensures BitsAre(sb, e, used)
  {
    forall b | 0 <= b < sb.size ensures Marked(sb, e, b) == Marked(sb, d, b) {
      BBlockBound(sb, b);
    }
  }

  // ---- a whole bitmap ------------------------------------------------------------------------

  /** The disk with the bits of the blocks [lo, hi) set. */
  function MarkRange(sb: Super, d: Disk, lo: nat, hi: nat): (r: Disk)
    requires Layout(sb, d) && hi <= sb.size
    ensures Layout(sb, r) && |r| == |d|
    decreases hi
  {
    if lo < hi then Mark(sb, MarkRange(sb, d, lo, hi - 1), hi - 1, true) else d
  }

  /** The blocks [lo, hi). */
  ghost function Range(lo: nat, hi: nat): (s: set<nat>)
    ensures forall b :: b in s <==> lo <= b < hi
    decreases hi
  {
    if lo < hi then Range(lo, hi - 1) + {hi - 1} else {}
  }

  lemma {:induction false} RangeNext(used: set<nat>, lo: nat, hi: nat)
    requires lo <= hi
    ensures used + Range(lo, hi + 1) == used + Range(lo, hi) + {hi}
  {
  }

  /** It adds exactly those blocks to the set. */
  lemma {:induction false} MarkRangeBits(sb: Super, d: Disk, used: set<nat>, lo: nat, hi: nat) returns (r: Disk, now: set<nat>)
    requires BitsAre(sb, d, used) && hi <= sb.size
    ensures r == MarkRange(sb, d, lo, hi) && now == used + Range(lo, hi) && BitsAre(sb, r, now)
    decreases hi
  {
    if lo < hi {
      var e, was := MarkRangeBits(sb, d, used, lo, hi - 1);
      r, now := Mark(sb, e, hi - 1, true), was + {hi - 1};
      MarkedToo(sb, e, was, hi - 1, now);
      RangeNext(used, lo, hi - 1);
    } else {
      r, now := d, used;
      assert used + Range(lo, hi) == used;
    }
  }

  /** And touches nothing from the data area on. */
  lemma {:induction false} MarkRangeData(sb: Super, d: Disk, lo: nat, hi: nat, s: nat)
    requires Layout(sb, d) && hi <= sb.size && sb.lo <= s < |d|
    ensures MarkRange(sb, d, lo, hi)[s] == d[s]
    decreases hi
  {
    if lo < hi { MarkRangeData(sb, d, lo, hi - 1, s); }
  }

  lemma {:induction false} MarkedToo(sb: Super, d: Disk, used: set<nat>, b: nat, more: set<nat>)
    requires BitsAre(sb, d, used) && b < sb.size && more == used + {b}
    ensures BitsAre(sb, Mark(sb, d, b, true), more)
  {
    MarkRefines(sb, d, used, b, true);
  }

  lemma {:induction false} NoBit(k: nat)
    ensures !Bit(0, k)
    decreases k
  {
    if k > 0 { NoBit(k - 1); }
  }

  /** Zeroed bitmap blocks stand for the empty set. */
  lemma ZeroBits(sb: Super, d: Disk)
    requires Layout(sb, d) && forall s :: 0 <= s < sb.lo ==> d[s] == Zero()
    ensures BitsAre(sb, d, {})
  {
    forall b {:trigger Marked(sb, d, b)} | 0 <= b < sb.size ensures !Marked(sb, d, b) {
      BBlockBound(sb, b);
      ZeroBytes(b % BPB / 8);
      NoBit(b % BPB % 8);
    }
  }
}
