/** Consistent volumes, what it means to add blocks to one or to write into a file, and the index
    slots involved. */
module Volumes {
  import opened Wrappers
  import opened Blocks
  import opened Bitmap
  import opened FileIndex

  const MAXFILE: nat := NDIRECT + NINDIRECT    // fs.h; writei's limit
  const UINT: nat := 0x1_0000_0000

  /** The volume is consistent: the bitmap is the set `used`, every block in a slot is a
      used data block, and nothing outside the data area is ever free. */
  ghost predicate Consistent(sb: Super, f: Fs, owner: map<nat, Owner>, used: set<nat>)
  {
    && BitsAre(sb, f.blocks, used) && Tree(f, owner)
    && (forall b :: b in owner ==> sb.lo <= b < sb.hi && b in used)
    && (forall b :: 0 <= b < sb.size && !(sb.lo <= b < sb.hi) ==> b in used)
    && (forall i :: 0 <= i < |f.inodes| ==> f.inodes[i].size <= MAXBLOCKS * BSIZE)
  }

  /** No block is used without being in a slot. */
  ghost predicate NoLeak(sb: Super, owner: map<nat, Owner>, used: set<nat>)
  {
    forall b :: sb.lo <= b < sb.hi && b in used ==> b in owner
  }

  /** From f to g blocks were only added: no slot in use moved, no byte of any file and no
      size changed. */
  ghost predicate Extends(f: Fs, g: Fs)
  {
    && |g.inodes| == |f.inodes| && |g.blocks| == |f.blocks|
    && (forall j, t :: 0 <= j < |f.inodes| && ValidSlot(t) && Ptr(f, j, t) != 0 ==> Ptr(g, j, t) == Ptr(f, j, t))
    && (forall j, off :: 0 <= j < |f.inodes| && 0 <= off < MAXBLOCKS * BSIZE ==> FileByte(g, j, off) == FileByte(f, j, off))
    && (forall j :: 0 <= j < |f.inodes| ==> g.inodes[j].size == f.inodes[j].size)
  }

  /** The bytes of file i. */
  function Contents(f: Fs, i: nat): (c: seq<Byte>)
    requires i < |f.inodes| && f.inodes[i].size <= MAXBLOCKS * BSIZE
  {
    FileBytes(f, i, 0, f.inodes[i].size)
  }

  /** c with src written over it at off. */
  function Written(c: seq<Byte>, off: nat, src: seq<Byte>): (r: seq<Byte>)
    requires off <= |c|
  {
    c[..off] + src + (if off + |src| <= |c| then c[off + |src|..] else [])
  }

  lemma GrownExtends(f: Fs, owner: map<nat, Owner>, i: nat, s: Slot, a: Word)
    requires CanGrow(f, owner, i, s, a)
    ensures Extends(f, Grown(f, i, s, a)) && Ptr(Grown(f, i, s, a), i, s) == a
  {
    var g := Grown(f, i, s, a);
    forall j, t | 0 <= j < |f.inodes| && ValidSlot(t)
      ensures Ptr(g, j, t) == (if j == i && t == s then a else Ptr(f, j, t))
    {
      GrownPtr(f, owner, i, s, a, j, t);
    }
    forall j, off | 0 <= j < |f.inodes| && 0 <= off < MAXBLOCKS * BSIZE
      ensures FileByte(g, j, off) == FileByte(f, j, off)
    {
      GrownByte(f, owner, i, s, a, j, off);
    }
  }

  /** balloc marks block a (giving m), zeroes it, and it is stored in an empty slot. */
  lemma {:induction false} GrowConsistent(sb: Super, f: Fs, m: Fs, owner: map<nat, Owner>, used: set<nat>, i: nat, s: Slot, a: nat)
    requires Consistent(sb, f, owner, used) && i < |f.inodes| && ValidSlot(s) && Ptr(f, i, s) == 0
    requires s.Child? ==> Ptr(f, i, s.parent) != 0
    requires a !in used && a < sb.size
    requires m.inodes == f.inodes && |m.blocks| == |f.blocks| && BitsAre(sb, m.blocks, used + {a})
    requires forall b :: sb.lo <= b < |f.blocks| ==> m.blocks[b] == f.blocks[b]
    ensures CanGrow(m, owner, i, s, a)
    ensures var g := Grown(m, i, s, a);
            Consistent(sb, g, owner[a := Owner(i, s)], used + {a}) && Extends(f, g) && Ptr(g, i, s) == a
    ensures NoLeak(sb, owner, used) ==> NoLeak(sb, owner[a := Owner(i, s)], used + {a})
  {
    UnownedTree(f, m, owner);
    var g := Grown(m, i, s, a);
    GrownTree(m, owner, i, s, a);
    GrownExtends(m, owner, i, s, a);
    assert Extends(f, m);
    ExtendsTrans(f, m, g);
    BitsFrame(sb, m.blocks, g.blocks, used + {a});
  }

  /** readi and writei: the return value -1, a kernel panic, or a byte count. */
  datatype Io = Failed | Panicked | Done(count: nat)

  /** At most n bytes of c from off on. */
  function Slice(c: seq<Byte>, off: nat, n: nat): (r: seq<Byte>)
    requires off <= |c|
  {
    if off + n <= |c| then c[off..off + n] else c[off..]
  }

  /** m bytes out of the data block b that holds byte `at` of file i in g. */
  function Piece(ghost g: Fs, ghost f: Fs, ghost i: nat, at: nat, m: nat, b: Block): (r: seq<Byte>)
    requires Extends(f, g) && i < |g.inodes| && at % BSIZE + m <= BSIZE && at + m <= MAXBLOCKS * BSIZE && at / BSIZE < MAXBLOCKS
    requires 0 < Ptr(g, i, SlotOf(at / BSIZE)) < |g.blocks| && b == g.blocks[Ptr(g, i, SlotOf(at / BSIZE))]
    ensures |r| == m && r == FileBytes(f, i, at, |r|)
  {
    BlockBytes(g, i, at, m);
    ExtendsBytes(f, g, i, at, m);
    ToBytes(b)[at % BSIZE..at % BSIZE + m]
  }

  /** dst followed by the next piece of the file. */
  function AppendPiece(ghost f: Fs, ghost i: nat, ghost off: nat, ghost at: nat, dst: seq<Byte>, piece: seq<Byte>): (r: seq<Byte>)
    requires i < |f.inodes| && at == off + |dst| && at + |piece| <= MAXBLOCKS * BSIZE
    requires dst == FileBytes(f, i, off, |dst|) && piece == FileBytes(f, i, at, |piece|)
    ensures |r| == |dst| + |piece| && r == FileBytes(f, i, off, |r|)
  {
    FileBytesAppend(f, i, off, |dst|, |piece|);
    dst + piece
  }

  lemma SliceOfContents(f: Fs, i: nat, off: nat, n: nat)
    requires i < |f.inodes| && f.inodes[i].size <= MAXBLOCKS * BSIZE && off <= f.inodes[i].size
    ensures var len := if off + n > f.inodes[i].size then f.inodes[i].size - off else n;
            Slice(Contents(f, i), off, n) == FileBytes(f, i, off, len)
  {
  }

  lemma ExtendsBytes(f: Fs, g: Fs, i: nat, at: nat, m: nat)
    requires Extends(f, g) && i < |f.inodes| && at + m <= MAXBLOCKS * BSIZE
    ensures FileBytes(g, i, at, m) == FileBytes(f, i, at, m)
  {
  }

  lemma ExtendsTrans(f: Fs, g: Fs, h: Fs)
    requires Extends(f, g) && Extends(g, h)
    ensures Extends(f, h)
  {
  }

  /** The byte and bit balloc tests for bit bi of the bitmap block that begins at block b. */
  lemma ScanBit(sb: Super, d: Disk, b: nat, bi: nat)
    requires Layout(sb, d) && b % BPB == 0 && bi < BPB && b + bi < sb.size
    ensures BBlock(sb, b) == BBlock(sb, b + bi) < sb.lo && (b + bi) % BPB == bi
    ensures Marked(sb, d, b + bi) == Bit(ByteAt(d[BBlock(sb, b)], bi / 8), bi % 8)
    ensures Mark(sb, d, b + bi, true)
            == d[BBlock(sb, b) := Splice(d[BBlock(sb, b)], bi / 8, [PutByteBit(ByteAt(d[BBlock(sb, b)], bi / 8), bi % 8, true)])]
  {
    BBlockBound(sb, b + bi);
    assert (b + bi) / BPB == b / BPB;
  }

  /** d and e differ in the bitmap block of b at most. */
  ghost predicate OnlyBitmap(sb: Super, d: Disk, e: Disk, b: nat)
  {
    |e| == |d| && forall s :: 0 <= s < |d| && s != BBlock(sb, b) ==> e[s] == d[s]
  }

  lemma Marking(sb: Super, d: Disk, e: Disk, was: set<nat>, now: set<nat>, b: nat, on: bool)
    requires BitsAre(sb, d, was) && b < sb.size
    requires e == Mark(sb, d, b, on) && now == (if on then was + {b} else was - {b})
    ensures BitsAre(sb, e, now)
  {
    MarkRefines(sb, d, was, b, on);
  }

  /** From f to g exactly the bytes [off, off + |data|) of file i became data. */
  ghost predicate Patched(f: Fs, g: Fs, i: nat, off: nat, data: seq<Byte>)
  {
    && |g.inodes| == |f.inodes| && |g.blocks| == |f.blocks|
    && (forall j, o :: 0 <= j < |f.inodes| && 0 <= o < MAXBLOCKS * BSIZE ==>
          FileByte(g, j, o) == (if j == i && off <= o < off + |data| then data[o - off] else FileByte(f, j, o)))
    && (forall j :: 0 <= j < |f.inodes| ==> g.inodes[j].size == f.inodes[j].size)
  }

  lemma PatchedExtends(f: Fs, g: Fs, h: Fs, i: nat, off: nat, data: seq<Byte>)
    ensures Patched(f, g, i, off, data) && Extends(g, h) ==> Patched(f, h, i, off, data)
  {
  }

  /** Splicing the next piece into its data block patches the file further. */
  lemma {:induction false} PatchedRewrite(f: Fs, g: Fs, owner: map<nat, Owner>, i: nat, off: nat, data: seq<Byte>, piece: seq<Byte>, at: nat, b: Block)
    requires Patched(f, g, i, off, data) && Tree(g, owner) && i < |g.inodes|
    requires at == off + |data| && at / BSIZE < MAXBLOCKS && at % BSIZE + |piece| <= BSIZE
    requires Ptr(g, i, SlotOf(at / BSIZE)) != 0
    requires Ptr(g, i, SlotOf(at / BSIZE)) < |g.blocks|
    requires b == Splice(g.blocks[Ptr(g, i, SlotOf(at / BSIZE))], at % BSIZE, piece)
    ensures Patched(f, Rewritten(g, i, SlotOf(at / BSIZE), b), i, off, data + piece)
  {
    var h := Rewritten(g, i, SlotOf(at / BSIZE), b);
    forall j, o | 0 <= j < |f.inodes| && 0 <= o < MAXBLOCKS * BSIZE
      ensures FileByte(h, j, o) == (if j == i && off <= o < off + |data + piece| then (data + piece)[o - off] else FileByte(f, j, o))
    {
      if at <= o < at + |piece| {
        SameBlock(at, o - at);
      }
      if j == i && o / BSIZE == at / BSIZE {
        PatchedHere(g, owner, i, piece, at, b, o);
      } else {
        RewrittenByte(g, owner, i, at / BSIZE, b, j, o);
      }
    }
  }

  lemma PatchedHere(g: Fs, owner: map<nat, Owner>, i: nat, piece: seq<Byte>, at: nat, b: Block, o: nat)
    requires Tree(g, owner) && i < |g.inodes| && at / BSIZE < MAXBLOCKS && at % BSIZE + |piece| <= BSIZE
    requires Ptr(g, i, SlotOf(at / BSIZE)) != 0
    requires Ptr(g, i, SlotOf(at / BSIZE)) < |g.blocks|
    requires b == Splice(g.blocks[Ptr(g, i, SlotOf(at / BSIZE))], at % BSIZE, piece)
    requires o < MAXBLOCKS * BSIZE && o / BSIZE == at / BSIZE
    ensures FileByte(Rewritten(g, i, SlotOf(at / BSIZE), b), i, o) == (if at <= o < at + |piece| then piece[o - at] else FileByte(g, i, o))
  {
    RewrittenByte(g, owner, i, at / BSIZE, b, i, o);
    assert o - at == o % BSIZE - at % BSIZE;
  }

  lemma RewriteConsistent(sb: Super, f: Fs, owner: map<nat, Owner>, used: set<nat>, i: nat, s: Slot, b: Block)
    requires Consistent(sb, f, owner, used) && i < |f.inodes| && ValidSlot(s) && IsLeaf(s) && Ptr(f, i, s) != 0
    ensures Ptr(f, i, s) < |f.blocks| && Consistent(sb, Rewritten(f, i, s, b), owner, used)
  {
    RewrittenTree(f, owner, i, s, b);
    BitsFrame(sb, f.blocks, Rewritten(f, i, s, b).blocks, used);
  }

  /** A size does not matter to the index. */
  lemma {:induction false} ResizedPtr(f: Fs, g: Fs, j: nat, t: Slot)
    requires g.blocks == f.blocks && |g.inodes| == |f.inodes| && j < |f.inodes| && ValidSlot(t)
    requires g.inodes[j].addrs == f.inodes[j].addrs
    ensures Ptr(g, j, t) == Ptr(f, j, t)
    decreases t
  {
    match t
    case Direct(_) =>
    case Root =>
    case Child(p, k) => ResizedPtr(f, g, j, p);
  }

  lemma Resized(sb: Super, f: Fs, g: Fs, owner: map<nat, Owner>, used: set<nat>, i: nat)
    requires Consistent(sb, f, owner, used) && i < |f.inodes| && g.blocks == f.blocks && |g.inodes| == |f.inodes|
    requires forall j :: 0 <= j < |f.inodes| ==> g.inodes[j].addrs == f.inodes[j].addrs
    requires forall j :: 0 <= j < |f.inodes| ==> g.inodes[j].size <= MAXBLOCKS * BSIZE
    ensures Consistent(sb, g, owner, used)
    ensures forall j, o :: 0 <= j < |f.inodes| && 0 <= o < MAXBLOCKS * BSIZE ==> FileByte(g, j, o) == FileByte(f, j, o)
  {
    forall j, t | 0 <= j < |f.inodes| && ValidSlot(t) ensures Ptr(g, j, t) == Ptr(f, j, t) {
      ResizedPtr(f, g, j, t);
    }
  }

  /** What the patched bytes and the new size mean for the contents of each file. */
  lemma PatchedContents(f: Fs, g: Fs, i: nat, off: nat, src: seq<Byte>)
    requires |g.inodes| == |f.inodes| && i < |f.inodes| && off <= f.inodes[i].size
    requires forall j :: 0 <= j < |f.inodes| ==> f.inodes[j].size <= MAXBLOCKS * BSIZE && g.inodes[j].size <= MAXBLOCKS * BSIZE
    requires forall j, o :: 0 <= j < |f.inodes| && 0 <= o < MAXBLOCKS * BSIZE ==>
               FileByte(g, j, o) == (if j == i && off <= o < off + |src| then src[o - off] else FileByte(f, j, o))
    requires forall j :: 0 <= j < |f.inodes| ==>
               g.inodes[j].size == (if j == i && off + |src| > f.inodes[j].size then off + |src| else f.inodes[j].size)
    ensures Contents(g, i) == Written(Contents(f, i), off, src)
    ensures forall j :: 0 <= j < |f.inodes| && j != i ==> Contents(g, j) == Contents(f, j)
  {
    assert Contents(g, i) == Written(Contents(f, i), off, src);
    forall j | 0 <= j < |f.inodes| && j != i ensures Contents(g, j) == Contents(f, j) { }
  }

  /** Every byte of file i below `end` has a block. */
  ghost predicate Mapped(f: Fs, i: nat, end: nat)
    requires i < |f.inodes|
  {
    forall o :: 0 <= o < end && o < MAXBLOCKS * BSIZE ==> Ptr(f, i, SlotOf(o / BSIZE)) != 0
  }

  /** A data block in use has its whole path of index blocks in use. */
  lemma LeafPath(f: Fs, i: nat, k3: nat, k2: nat, k1: nat)
    requires i < |f.inodes| && k3 < NINDIRECT && k2 < NINDIRECT && k1 < NINDIRECT
    ensures ValidSlot(Child(Root, k3)) && ValidSlot(Child(Child(Root, k3), k2))
    ensures Ptr(f, i, Leaf(k3, k2, k1)) != 0 ==>
              Ptr(f, i, Root) != 0 && Ptr(f, i, Child(Root, k3)) != 0 && Ptr(f, i, Child(Child(Root, k3), k2)) != 0
  {
    var s1 := Child(Root, k3);
    var s2 := Child(s1, k2);
    TreeSlots(k3, k2, k1);
    assert Leaf(k3, k2, k1) == Child(s2, k1);
    assert Ptr(f, i, Child(s2, k1)) != 0 ==> Ptr(f, i, s2) != 0;
    assert Ptr(f, i, s2) != 0 ==> Ptr(f, i, s1) != 0;
    assert Ptr(f, i, s1) != 0 ==> Ptr(f, i, Root) != 0;
  }

  /** Slot t is s or lies on the path of index blocks down to it. */
  predicate OnPath(t: Slot, s: Slot)
  {
    t == s || (s.Child? && OnPath(t, s.parent))
  }

  /** From f to g only slots of inode i on the path to s were filled. */
  ghost predicate OnlyPath(f: Fs, g: Fs, i: nat, s: Slot)
  {
    |g.inodes| == |f.inodes| &&
    forall j, t :: 0 <= j < |f.inodes| && ValidSlot(t) && Ptr(g, j, t) != Ptr(f, j, t) ==> j == i && OnPath(t, s)
  }

  lemma OnlyPathTrans(f: Fs, g: Fs, h: Fs, i: nat, p: Slot, s: Slot)
    requires OnlyPath(f, g, i, p) && OnlyPath(g, h, i, s) && s.Child? && s.parent == p
    ensures OnlyPath(f, h, i, s)
  {
    forall j, t | 0 <= j < |f.inodes| && ValidSlot(t) && Ptr(h, j, t) != Ptr(f, j, t) ensures j == i && OnPath(t, s) {
      assert Ptr(g, j, t) != Ptr(f, j, t) || Ptr(h, j, t) != Ptr(g, j, t);
    }
  }

  lemma GrownOnlyPath(f: Fs, m: Fs, owner: map<nat, Owner>, i: nat, s: Slot, a: Word)
    requires CanGrow(m, owner, i, s, a) && |m.inodes| == |f.inodes|
    requires forall j, t :: 0 <= j < |f.inodes| && ValidSlot(t) ==> Ptr(m, j, t) == Ptr(f, j, t)
    ensures OnlyPath(f, Grown(m, i, s, a), i, s)
  {
    forall j, t | 0 <= j < |f.inodes| && ValidSlot(t) ensures Ptr(Grown(m, i, s, a), j, t) == (if j == i && t == s then a else Ptr(f, j, t)) {
      GrownPtr(m, owner, i, s, a, j, t);
    }
  }

  /** The same, when m differs from f only in the bitmap. */
  lemma MarkedOnlyPath(sb: Super, f: Fs, m: Fs, owner: map<nat, Owner>, i: nat, s: Slot, a: Word)
    requires Tree(f, owner) && CanGrow(m, owner, i, s, a) && m.inodes == f.inodes && |m.blocks| == |f.blocks|
    requires (forall b :: b in owner ==> sb.lo <= b) && forall b :: sb.lo <= b < |f.blocks| ==> m.blocks[b] == f.blocks[b]
    ensures OnlyPath(f, Grown(m, i, s, a), i, s)
  {
    UnownedTree(f, m, owner);
    GrownOnlyPath(f, m, owner, i, s, a);
  }

  /** All that balloc, which leaves m and zeroes block a, and the store into an empty slot do. */
  lemma {:induction false} GrowSlot(sb: Super, f: Fs, m: Disk, owner: map<nat, Owner>, used: set<nat>, i: nat, s: Slot, a: nat) returns (g: Fs)
    requires Consistent(sb, f, owner, used) && i < |f.inodes| && ValidSlot(s) && Ptr(f, i, s) == 0
    requires s.Child? ==> Ptr(f, i, s.parent) != 0
    requires a !in used && a < sb.size && OnlyBitmap(sb, f.blocks, m, a) && BitsAre(sb, m, used + {a})
    ensures a != 0 && (s.Child? ==> 0 < Ptr(f, i, s.parent) < |m| && Ptr(f, i, s.parent) != a)
    ensures g == Stored(Fs(m[a := Zero()], f.inodes), i, s, if s.Child? then Ptr(f, i, s.parent) else 0, a)
    ensures Consistent(sb, g, owner[a := Owner(i, s)], used + {a}) && Extends(f, g) && Ptr(g, i, s) == a && OnlyPath(f, g, i, s)
    ensures forall t :: ValidSlot(t) && t != s ==> Ptr(g, i, t) == Ptr(f, i, t)
    ensures NoLeak(sb, owner, used) ==> NoLeak(sb, owner[a := Owner(i, s)], used + {a})
  {
    BBlockBound(sb, a);
    GrowConsistent(sb, f, Fs(m, f.inodes), owner, used, i, s, a);
    MarkedOnlyPath(sb, f, Fs(m, f.inodes), owner, i, s, a);
    g := Grown(Fs(m, f.inodes), i, s, a);
    UnownedTree(f, Fs(m, f.inodes), owner);
    forall t | ValidSlot(t) && t != s ensures Ptr(g, i, t) == Ptr(f, i, t) { GrownPtr(Fs(m, f.inodes), owner, i, s, a, i, t); }
  }

  /** Every index block in use leads on to a block in use. */
  ghost predicate Branching(f: Fs, i: nat)
    requires i < |f.inodes|
  {
    forall s :: ValidSlot(s) && !IsLeaf(s) && Ptr(f, i, s) != 0 ==> LeadsOn(f, i, s)
  }

  ghost predicate LeadsOn(f: Fs, i: nat, s: Slot)
    requires i < |f.inodes| && ValidSlot(s) && !IsLeaf(s)
  {
    exists k :: 0 <= k < NINDIRECT && ValidSlot(Child(s, k)) && Ptr(f, i, Child(s, k)) != 0
  }

  /** Above a block in use every index block leads on. */
  lemma {:induction false} PathLeadsOn(f: Fs, i: nat, t: Slot, s: Slot)
    requires i < |f.inodes| && ValidSlot(s) && Ptr(f, i, s) != 0 && OnPath(t, s) && t != s
    ensures ValidSlot(t) && !IsLeaf(t) && LeadsOn(f, i, t)
    decreases s
  {
    var p := s.parent;
    assert Ptr(f, i, p) != 0;
    if t == p {
      assert s == Child(t, s.k);
    } else {
      PathLeadsOn(f, i, t, p);
    }
  }

  /** Filling the whole path to a data block keeps every inode's tree branching. */
  lemma KeepsBranching(f: Fs, g: Fs, i: nat, s: Slot, j: nat)
    requires Extends(f, g) && OnlyPath(f, g, i, s) && i < |f.inodes| && ValidSlot(s) && IsLeaf(s) && Ptr(g, i, s) != 0
    requires j < |f.inodes| && Branching(f, j)
    ensures Branching(g, j)
  {
    forall t | ValidSlot(t) && !IsLeaf(t) && Ptr(g, j, t) != 0 ensures LeadsOn(g, j, t) {
      if Ptr(f, j, t) != 0 {
        var k :| 0 <= k < NINDIRECT && ValidSlot(Child(t, k)) && Ptr(f, j, Child(t, k)) != 0;
        assert Ptr(g, j, Child(t, k)) != 0;
      } else {
        PathLeadsOn(g, i, t, s);
      }
    }
  }

  /** min(n - tot, BSIZE - off%BSIZE). */
  function PieceSize(at: nat, left: nat): (m: nat)
    requires left > 0
    ensures 0 < m <= left && at % BSIZE + m <= BSIZE
  {
    var room := BSIZE - at % BSIZE;
    if left < room then left else room
  }

  /** The block after the last one that n bytes from off on lie in. */
  function EndBlock(off: nat, n: nat): (e: nat)
    ensures off / BSIZE <= e
  {
    if n == 0 then off / BSIZE else (off + n - 1) / BSIZE + 1
  }

  lemma {:induction false} EndInFile(off: nat, n: nat, blocks: nat)
    requires off + n <= blocks * BSIZE
    ensures EndBlock(off, n) <= blocks
  {
  }

  /** writei's loop, at byte `at` after tot of n bytes, which lie in the blocks [b, last), has
      written the blocks up to e. */
  predicate Standing(at: nat, tot: nat, n: nat, b: nat, e: nat, last: nat)
  {
    && tot <= n && b <= e <= last <= MAXFILE && (n == 0 ==> last == b)
    && (tot == 0 ==> e == b) && (0 < tot < n ==> at == e * BSIZE && e < last) && (0 < tot == n ==> e == last)
  }

  /** Each piece lies in one block, the next one. */
  lemma {:induction false} PieceNext(off: nat, at: nat, tot: nat, n: nat, b: nat, e: nat, last: nat, m: nat)
    requires tot < n && at == off + tot && b == off / BSIZE && last == EndBlock(off, n) && Standing(at, tot, n, b, e, last)
    requires m == PieceSize(at, n - tot)
    ensures at / BSIZE == e < last && Standing(at + m, tot + m, n, b, e + 1, last)
  {
    assert e * BSIZE <= at < (e + 1) * BSIZE;
    if m < n - tot {
      assert at + m == (e + 1) * BSIZE;
    } else {
      assert off + n - 1 == at + m - 1;
    }
  }

  lemma {:induction false} AllUsed(used: set<nat>, n: nat)
    requires forall b :: 0 <= b < n ==> b in used
    ensures n <= |used|
    decreases n
  {
    if n > 0 {
      AllUsed(used - {n - 1}, n - 1);
    }
  }

  /** The slots on the path to s that are not in use. */
  function EmptyOn(f: Fs, i: nat, s: Slot): (n: nat)
    requires i < |f.inodes| && ValidSlot(s)
  {
    (if Ptr(f, i, s) == 0 then 1 else 0) + (if s.Child? then EmptyOn(f, i, s.parent) else 0)
  }

  lemma {:induction false} PathUp(s: Slot, t: Slot)
    requires OnPath(s, t) && s.Child?
    ensures OnPath(s.parent, t)
    decreases t
  {
    if s != t { PathUp(s, t.parent); } else { assert OnPath(s.parent, s.parent); }
  }

  lemma {:induction false} InUseAbove(f: Fs, i: nat, s: Slot, t: Slot)
    requires i < |f.inodes| && ValidSlot(t) && Ptr(f, i, t) != 0 && OnPath(s, t)
    ensures ValidSlot(s) && Ptr(f, i, s) != 0
    decreases t
  {
    if s != t { InUseAbove(f, i, s, t.parent); }
  }

  /** Filling a slot changes none below it. */
  lemma {:induction false} BelowUnchanged(f: Fs, g: Fs, i: nat, p: Slot, k: nat)
    requires OnlyPath(f, g, i, p) && i < |f.inodes| && ValidSlot(Child(p, k))
    ensures Ptr(g, i, Child(p, k)) == Ptr(f, i, Child(p, k))
  {
    if OnPath(Child(p, k), p) { DeeperOnPath(Child(p, k), p); }
  }

  lemma {:induction false} DeeperOnPath(t: Slot, s: Slot)
    requires ValidSlot(s) && OnPath(t, s)
    ensures Depth(t) <= Depth(s)
    decreases s
  {
    if t != s { DeeperOnPath(t, s.parent); }
  }

  /** From f to g slot s was filled if it was empty, with the count going from x to y, or there
      was none below the limit; r is what the slot holds. */
  ghost predicate Filled(f: Fs, x: nat, g: Fs, y: nat, i: nat, s: Slot, r: Option<nat>, limit: nat)
    requires i < |f.inodes| && ValidSlot(s)
  {
    && Extends(f, g)
    && (r.Some? ==> r.value != 0 && r.value == Ptr(g, i, s) && OnlyPath(f, g, i, s) && y == x + if Ptr(f, i, s) == 0 then 1 else 0)
    && (r.None? ==> Ptr(f, i, s) == 0 && y == x && y >= limit)
  }

  /** The same for the whole path to s. */
  ghost predicate Placed(f: Fs, x: nat, g: Fs, y: nat, i: nat, s: Slot, r: Option<nat>, limit: nat)
    requires i < |f.inodes| && ValidSlot(s)
  {
    && Extends(f, g)
    && (r.Some? ==> r.value != 0 && r.value == Ptr(g, i, s) && OnlyPath(f, g, i, s) && y == x + EmptyOn(f, i, s))
    && (r.None? ==> y < x + EmptyOn(f, i, s) && y >= limit)
  }

  lemma {:induction false} FilledTop(f: Fs, x: nat, g: Fs, y: nat, i: nat, s: Slot, r: Option<nat>, limit: nat)
    requires i < |f.inodes| && ValidSlot(s) && !s.Child? && Filled(f, x, g, y, i, s, r, limit)
    ensures Placed(f, x, g, y, i, s, r, limit)
  {
  }

  lemma {:induction false} FilledBelow(f: Fs, x: nat, g: Fs, y: nat, h: Fs, z: nat, i: nat, p: Slot, a: nat, k: nat, r: Option<nat>, limit: nat)
    requires i < |f.inodes| && ValidSlot(Child(p, k))
    requires Placed(f, x, g, y, i, p, Some(a), limit) && Filled(g, y, h, z, i, Child(p, k), r, limit)
    ensures Placed(f, x, h, z, i, Child(p, k), r, limit)
  {
    ExtendsTrans(f, g, h);
    BelowUnchanged(f, g, i, p, k);
    if r.Some? { OnlyPathTrans(f, g, h, i, p, Child(p, k)); }
  }

  lemma {:induction false} NoneBelow(f: Fs, x: nat, g: Fs, y: nat, i: nat, p: Slot, k: nat, limit: nat)
    requires i < |f.inodes| && ValidSlot(Child(p, k)) && Placed(f, x, g, y, i, p, None, limit)
    ensures Placed(f, x, g, y, i, Child(p, k), None, limit)
  {
  }

  // ---- a file written ---------------------------------------------------------------------------------

  /** The bounds within which writei takes n bytes. */
  predicate InBounds(size: nat, at: nat, n: nat)
  {
    at <= size && at + n <= MAXFILE * BSIZE
  }

  /** From f to g file i was written. */
  ghost predicate Wrote(f: Fs, g: Fs, i: nat, at: nat, piece: seq<Byte>)
  {
    && |g.inodes| == |f.inodes| && i < |f.inodes| && SizesOk(f) && SizesOk(g)
    && at <= |Contents(f, i)| && Contents(g, i) == Written(Contents(f, i), at, piece)
    && forall j :: 0 <= j < |f.inodes| && j != i ==> Contents(g, j) == Contents(f, j)
  }

  ghost predicate SizesOk(f: Fs)
  {
    forall j :: 0 <= j < |f.inodes| ==> f.inodes[j].size <= MAXBLOCKS * BSIZE
  }
}
