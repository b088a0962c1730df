/** The block index of an inode (fs.c bmap, mkfs.c iappend): twelve direct slots and one
    three-level tree of index blocks.  A slot is a place that can hold a block number;
    `Ptr` reads it by walking the disk. */
module FileIndex {
  import opened Blocks

  const NDIRECT: nat := 12
  const NINDIRECT: nat := WORDS
  const LEVELS: nat := 3
  const MAXBLOCKS: nat := NDIRECT + NINDIRECT * NINDIRECT * NINDIRECT

  type Addrs = s: seq<Word> | |s| == NDIRECT + 1 witness seq(13, _ => 0)

  /** The in-memory inode fields the index uses. */
  datatype Inode = Inode(size: Word, addrs: Addrs)

  /** The sectors as the cache shows them, and the inodes. */
  datatype Fs = Fs(blocks: Disk, inodes: seq<Inode>)

  datatype Slot = Direct(i: nat) | Root | Child(parent: Slot, k: nat)

  function Depth(s: Slot): (d: nat)
  {
    match s
    case Direct(_) => LEVELS
    case Root => 0
    case Child(p, _) => Depth(p) + 1
  }

  predicate ValidSlot(s: Slot)
  {
    match s
    case Direct(i) => i < NDIRECT
    case Root => true
    case Child(p, k) => k < NINDIRECT && ValidSlot(p) && Depth(p) < LEVELS
  }

  /** A slot that names a data block, not an index block. */
  predicate IsLeaf(s: Slot)
  {
    Depth(s) == LEVELS
  }

  /** The block number in slot s of inode i, 0 when there is none. */
  function Ptr(f: Fs, i: nat, s: Slot): (a: Word)
    requires i < |f.inodes| && ValidSlot(s)
  {
    match s
    case Direct(k) => f.inodes[i].addrs[k]
    case Root => f.inodes[i].addrs[NDIRECT]
    case Child(p, k) =>
      var a := Ptr(f, i, p);
      if a == 0 || a >= |f.blocks| then 0 else GetWord(f.blocks[a], k)
  }

  /** The slots of the tree, level by level. */
  lemma Below(s: Slot, k: nat)
    requires ValidSlot(s) && Depth(s) < LEVELS && k < NINDIRECT
    ensures ValidSlot(Child(s, k)) && Depth(Child(s, k)) == Depth(s) + 1
  {
  }

  lemma TreeSlots(k3: nat, k2: nat, k1: nat)
    requires k3 < NINDIRECT && k2 < NINDIRECT && k1 < NINDIRECT
    ensures ValidSlot(Root) && Depth(Root) == 0
    ensures ValidSlot(Child(Root, k3)) && Depth(Child(Root, k3)) == 1
    ensures ValidSlot(Child(Child(Root, k3), k2)) && Depth(Child(Child(Root, k3), k2)) == 2
    ensures ValidSlot(Child(Child(Child(Root, k3), k2), k1)) && Depth(Child(Child(Child(Root, k3), k2), k1)) == 3
  {
    assert Depth(Root) == 0 && ValidSlot(Root);
    Below(Root, k3);
    Below(Child(Root, k3), k2);
    Below(Child(Child(Root, k3), k2), k1);
  }

  /** The data slot under the three given index entries. */
  function Leaf(k3: nat, k2: nat, k1: nat): (s: Slot)
    requires k3 < NINDIRECT && k2 < NINDIRECT && k1 < NINDIRECT
    ensures ValidSlot(s) && IsLeaf(s)
  {
    TreeSlots(k3, k2, k1);
    Child(Child(Child(Root, k3), k2), k1)
  }

  /** Where bmap looks for block bn of a file. */
  function SlotOf(bn: nat): (s: Slot)
    requires bn < MAXBLOCKS
    ensures ValidSlot(s) && IsLeaf(s)
  {
    if bn < NDIRECT then Direct(bn)
    else
      var b := bn - NDIRECT;
      var d1 := b / NINDIRECT;
      var d2 := d1 / NINDIRECT;
      Leaf(d2 % NINDIRECT, d1 % NINDIRECT, b % NINDIRECT)
  }

  /** The slot of a block beyond the direct ones, by bmap's arithmetic. */
  lemma TreeSlot(bn: nat, b: nat, k3: nat, k2: nat, k1: nat)
    requires bn == NDIRECT + b < MAXBLOCKS
    requires k1 == b % NINDIRECT && k2 == b / NINDIRECT % NINDIRECT && k3 == b / NINDIRECT / NINDIRECT % NINDIRECT
    ensures SlotOf(bn) == Leaf(k3, k2, k1)
  {
  }

  /** Different blocks of a file are in different slots. */
  lemma SlotOfInjective(x: nat, y: nat)
    requires x < MAXBLOCKS && y < MAXBLOCKS && SlotOf(x) == SlotOf(y)
    ensures x == y
  {
    if x >= NDIRECT && y >= NDIRECT {
      var a, b := x - NDIRECT, y - NDIRECT;
      var a1, b1 := a / NINDIRECT, b / NINDIRECT;
      assert a == a1 * NINDIRECT + a % NINDIRECT && b == b1 * NINDIRECT + b % NINDIRECT;
      assert a1 == a1 / NINDIRECT * NINDIRECT + a1 % NINDIRECT && b1 == b1 / NINDIRECT * NINDIRECT + b1 % NINDIRECT;
      assert a1 / NINDIRECT < NINDIRECT && b1 / NINDIRECT < NINDIRECT;
    }
  }

  /** Byte `off` of file i; a block that was never allocated reads as zeros. */
  function FileByte(f: Fs, i: nat, off: nat): (x: Byte)
    requires i < |f.inodes| && off < MAXBLOCKS * BSIZE
  {
    var a := Ptr(f, i, SlotOf(off / BSIZE));
    if a == 0 || a >= |f.blocks| then 0 else ByteAt(f.blocks[a], off % BSIZE)
  }

  /** m bytes of file i from `at` on. */
  function FileBytes(f: Fs, i: nat, at: nat, m: nat): (r: seq<Byte>)
    requires i < |f.inodes| && at + m <= MAXBLOCKS * BSIZE
    ensures |r| == m && forall k :: 0 <= k < m ==> r[k] == FileByte(f, i, at + k)
  {
    if m == 0 then [] else FileBytes(f, i, at, m - 1) + [FileByte(f, i, at + m - 1)]
  }

  lemma FileBytesAppend(f: Fs, i: nat, at: nat, m: nat, n: nat)
    requires i < |f.inodes| && at + m + n <= MAXBLOCKS * BSIZE
    ensures FileBytes(f, i, at, m) + FileBytes(f, i, at + m, n) == FileBytes(f, i, at, m + n)
  {
    var l, r := FileBytes(f, i, at, m) + FileBytes(f, i, at + m, n), FileBytes(f, i, at, m + n);
    forall k | 0 <= k < m + n ensures l[k] == r[k] {
      if k >= m {
        assert l[k] == FileByte(f, i, at + m + (k - m));
      }
    }
  }

  /** Inside one block, the bytes of a file are the bytes of its data block. */
  lemma BlockBytes(f: Fs, i: nat, at: nat, m: nat)
    requires i < |f.inodes| && at % BSIZE + m <= BSIZE && at + m <= MAXBLOCKS * BSIZE && at / BSIZE < MAXBLOCKS
    requires 0 < Ptr(f, i, SlotOf(at / BSIZE)) < |f.blocks|
    ensures FileBytes(f, i, at, m) == ToBytes(f.blocks[Ptr(f, i, SlotOf(at / BSIZE))])[at % BSIZE..at % BSIZE + m]
  {
    var d := ToBytes(f.blocks[Ptr(f, i, SlotOf(at / BSIZE))])[at % BSIZE..at % BSIZE + m];
    forall k | 0 <= k < m ensures FileBytes(f, i, at, m)[k] == d[k] {
      SameBlock(at, k);
    }
  }

  lemma SameBlock(at: nat, k: nat)
    requires at % BSIZE + k < BSIZE
    ensures (at + k) / BSIZE == at / BSIZE && (at + k) % BSIZE == at % BSIZE + k
  {
  }

  // ---- ownership ---------------------------------------------------------------

  datatype Owner = Owner(inum: nat, slot: Slot)

  /** Every block number in use is in exactly one slot of one inode: `owner` maps the
      blocks in use onto the slots that hold them. */
  ghost predicate Tree(f: Fs, owner: map<nat, Owner>)
  {
    && (forall i, s :: 0 <= i < |f.inodes| && ValidSlot(s) && Ptr(f, i, s) != 0 ==>
          Ptr(f, i, s) in owner && owner[Ptr(f, i, s)] == Owner(i, s))
    && (forall b :: b in owner ==>
          && 0 < b < |f.blocks|
          && owner[b].inum < |f.inodes| && ValidSlot(owner[b].slot)
          && Ptr(f, owner[b].inum, owner[b].slot) == b)
  }

  /** Two slots never hold the same block. */
  lemma PtrInjective(f: Fs, owner: map<nat, Owner>, i: nat, s: Slot, j: nat, t: Slot)
    requires Tree(f, owner) && i < |f.inodes| && j < |f.inodes| && ValidSlot(s) && ValidSlot(t)
    requires Ptr(f, i, s) == Ptr(f, j, t) != 0
    ensures i == j && s == t
  {
  }

  /** ip->addrs[k] = a. */
  function WithAddr(f: Fs, i: nat, k: nat, a: Word): (g: Fs)
    requires i < |f.inodes| && k <= NDIRECT
  {
    var ip := f.inodes[i];
    Fs(f.blocks, f.inodes[i := Inode(ip.size, ip.addrs[k := a])])
  }

  /** Block b gets new contents. */
  function WithBlock(f: Fs, b: nat, x: Block): (g: Fs)
    requires b < |f.blocks|
  {
    Fs(f.blocks[b := x], f.inodes)
  }

  /** Block number a stored in slot s, which lies in index block q unless it is in the inode. */
  function Stored(f: Fs, i: nat, s: Slot, q: nat, a: Word): (g: Fs)
    requires i < |f.inodes| && ValidSlot(s) && (s.Child? ==> q < |f.blocks|)
  {
    match s
    case Direct(k) => WithAddr(f, i, k, a)
    case Root => WithAddr(f, i, NDIRECT, a)
    case Child(_, k) => WithBlock(f, q, SetWord(f.blocks[q], k, a))
  }

  /** A zeroed block a put into the empty slot s of inode i. */
  function Grown(f: Fs, i: nat, s: Slot, a: Word): (g: Fs)
    requires i < |f.inodes| && ValidSlot(s) && 0 < a < |f.blocks|
    requires s.Child? ==> 0 < Ptr(f, i, s.parent) < |f.blocks|
  {
    var z := WithBlock(f, a, Zero());
    match s
    case Direct(k) => WithAddr(z, i, k, a)
    case Root => WithAddr(z, i, NDIRECT, a)
    case Child(p, k) => WithBlock(z, Ptr(f, i, p), SetWord(f.blocks[Ptr(f, i, p)], k, a))
  }

  ghost predicate CanGrow(f: Fs, owner: map<nat, Owner>, i: nat, s: Slot, a: Word)
  {
    && Tree(f, owner)
    && i < |f.inodes| && ValidSlot(s) && Ptr(f, i, s) == 0
    && (s.Child? ==> Ptr(f, i, s.parent) != 0)
    && 0 < a < |f.blocks| && a !in owner
  }

  /** Filling one slot changes no other slot of any inode. */
  lemma {:induction false} GrownPtr(f: Fs, owner: map<nat, Owner>, i: nat, s: Slot, a: Word, j: nat, t: Slot)
    requires CanGrow(f, owner, i, s, a) && j < |f.inodes| && ValidSlot(t)
    ensures Ptr(Grown(f, i, s, a), j, t) == (if j == i && t == s then a else Ptr(f, j, t))
    decreases t
  {
    var g := Grown(f, i, s, a);
    match t
    case Direct(_) =>
    case Root =>
    case Child(p, k) =>
      GrownPtr(f, owner, i, s, a, j, p);
      if j == i && p == s {
        assert g.blocks[a] == Zero();
      } else {
        var q := Ptr(f, j, p);
        if q != 0 && g.blocks[q] != f.blocks[q] {
          PtrInjective(f, owner, j, p, i, s.parent);
        }
      }
  }

  /** Filling a slot keeps the ownership map, one entry longer. */
  lemma GrownTree(f: Fs, owner: map<nat, Owner>, i: nat, s: Slot, a: Word)
    requires CanGrow(f, owner, i, s, a)
    ensures Tree(Grown(f, i, s, a), owner[a := Owner(i, s)])
  {
    var g := Grown(f, i, s, a);
    forall j, t | 0 <= j < |f.inodes| && ValidSlot(t)
      ensures Ptr(g, j, t) == (if j == i && t == s then a else Ptr(f, j, t))
    {
      GrownPtr(f, owner, i, s, a, j, t);
    }
  }

  /** Filling a slot, even a data slot, changes no byte of any file. */
  lemma GrownByte(f: Fs, owner: map<nat, Owner>, i: nat, s: Slot, a: Word, j: nat, off: nat)
    requires CanGrow(f, owner, i, s, a) && j < |f.inodes| && off < MAXBLOCKS * BSIZE
    ensures FileByte(Grown(f, i, s, a), j, off) == FileByte(f, j, off)
  {
    var t := SlotOf(off / BSIZE);
    GrownPtr(f, owner, i, s, a, j, t);
    if j == i && t == s {
      assert Grown(f, i, s, a).blocks[a] == Zero();
      ZeroBytes(off % BSIZE);
    } else if Ptr(f, j, t) != 0 && Grown(f, i, s, a).blocks[Ptr(f, j, t)] != f.blocks[Ptr(f, j, t)] {
      PtrInjective(f, owner, j, t, i, s.parent);
    }
  }

  /** Blocks that no slot holds do not matter to any slot. */
  lemma {:induction false} UnownedPtr(f: Fs, g: Fs, owner: map<nat, Owner>, j: nat, t: Slot)
    requires Tree(f, owner) && g.inodes == f.inodes && |g.blocks| == |f.blocks|
    requires forall b :: b in owner ==> b < |f.blocks| && g.blocks[b] == f.blocks[b]
    requires j < |f.inodes| && ValidSlot(t)
    ensures Ptr(g, j, t) == Ptr(f, j, t)
    decreases t
  {
    match t
    case Direct(_) =>
    case Root =>
    case Child(p, k) => UnownedPtr(f, g, owner, j, p);
  }

  lemma UnownedTree(f: Fs, g: Fs, owner: map<nat, Owner>)
    requires Tree(f, owner) && g.inodes == f.inodes && |g.blocks| == |f.blocks|
    requires forall b :: b in owner ==> b < |f.blocks| && g.blocks[b] == f.blocks[b]
    ensures Tree(g, owner)
    ensures forall j, off :: 0 <= j < |f.inodes| && 0 <= off < MAXBLOCKS * BSIZE ==> FileByte(g, j, off) == FileByte(f, j, off)
    ensures forall j, t :: 0 <= j < |f.inodes| && ValidSlot(t) ==> Ptr(g, j, t) == Ptr(f, j, t)
  {
    forall j, t | 0 <= j < |f.inodes| && ValidSlot(t) ensures Ptr(g, j, t) == Ptr(f, j, t) {
      UnownedPtr(f, g, owner, j, t);
    }
  }

  /** New contents for the data block in leaf slot s. */
  function Rewritten(f: Fs, i: nat, s: Slot, b: Block): (g: Fs)
    requires i < |f.inodes| && ValidSlot(s) && Ptr(f, i, s) < |f.blocks|
  {
    WithBlock(f, Ptr(f, i, s), b)
  }

  /** Writing a data block moves no block of any file. */
  lemma {:induction false} RewrittenPtr(f: Fs, owner: map<nat, Owner>, i: nat, s: Slot, b: Block, j: nat, t: Slot)
    requires Tree(f, owner) && i < |f.inodes| && ValidSlot(s) && IsLeaf(s) && Ptr(f, i, s) != 0
    requires j < |f.inodes| && ValidSlot(t)
    ensures Ptr(Rewritten(f, i, s, b), j, t) == Ptr(f, j, t)
    decreases t
  {
    match t
    case Direct(_) =>
    case Root =>
    case Child(p, k) =>
      RewrittenPtr(f, owner, i, s, b, j, p);
      if Ptr(f, j, p) == Ptr(f, i, s) {
        PtrInjective(f, owner, j, p, i, s);
      }
  }

  lemma RewrittenTree(f: Fs, owner: map<nat, Owner>, i: nat, s: Slot, b: Block)
    requires Tree(f, owner) && i < |f.inodes| && ValidSlot(s) && IsLeaf(s) && Ptr(f, i, s) != 0
    ensures Tree(Rewritten(f, i, s, b), owner)
  {
    var g := Rewritten(f, i, s, b);
    forall j, t | 0 <= j < |f.inodes| && ValidSlot(t) ensures Ptr(g, j, t) == Ptr(f, j, t) {
      RewrittenPtr(f, owner, i, s, b, j, t);
    }
  }

  /** Writing the data block of file block bn changes the bytes of that block and nothing
      else of any file. */
  lemma RewrittenByte(f: Fs, owner: map<nat, Owner>, i: nat, bn: nat, b: Block, j: nat, off: nat)
    requires Tree(f, owner) && i < |f.inodes| && bn < MAXBLOCKS && Ptr(f, i, SlotOf(bn)) != 0
    requires j < |f.inodes| && off < MAXBLOCKS * BSIZE
    ensures FileByte(Rewritten(f, i, SlotOf(bn), b), j, off) ==
            (if j == i && off / BSIZE == bn then ByteAt(b, off % BSIZE) else FileByte(f, j, off))
  {
    var s, t := SlotOf(bn), SlotOf(off / BSIZE);
    RewrittenPtr(f, owner, i, s, b, j, t);
    if Ptr(f, j, t) == Ptr(f, i, s) {
      PtrInjective(f, owner, j, t, i, s);
      SlotOfInjective(off / BSIZE, bn);
    }
  }
}
