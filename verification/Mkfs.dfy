/** mkfs.c iappend: the host-side writer of the same three-level tree, handing out blocks
    in increasing order from a zeroed image.  xint is the identity on word values: words
    are already little-endian in the sector model. */
module Mkfs {
  import opened Wrappers
  import opened Blocks
  import opened Bitmap
  import opened FileIndex
  import opened Volumes
  import opened FileSystem
  import opened ImageSize

  /** The blocks handed out, [first, freeblock), are exactly those in slots, and the rest of the
      image is still zero. */
  ghost predicate Fresh(f: Fs, owner: map<nat, Owner>, first: nat, freeblock: nat)
  {
    && Tree(f, owner)
    && 0 < first <= freeblock && |f.blocks| <= UINT
    && (forall b :: b in owner <==> first <= b < freeblock)
    && (forall b :: 0 <= b < |f.blocks| && b !in owner ==> f.blocks[b] == Zero())
    && (forall i :: 0 <= i < |f.inodes| ==> f.inodes[i].size <= MAXBLOCKS * BSIZE && Mapped(f, i, f.inodes[i].size))
  }

  /** Handing the next block to an empty slot changes no byte. */
  lemma NextBlock(f: Fs, owner: map<nat, Owner>, first: nat, freeblock: nat, i: nat, s: Slot)
    requires Fresh(f, owner, first, freeblock) && freeblock < |f.blocks|
    requires i < |f.inodes| && ValidSlot(s) && Ptr(f, i, s) == 0 && (s.Child? ==> Ptr(f, i, s.parent) != 0)
    ensures CanGrow(f, owner, i, s, freeblock)
    ensures var g := Grown(f, i, s, freeblock);
            && Fresh(g, owner[freeblock := Owner(i, s)], first, freeblock + 1)
            && Extends(f, g) && OnlyPath(f, g, i, s) && Ptr(g, i, s) == freeblock
            && g == Stored(f, i, s, if s.Child? then Ptr(f, i, s.parent) else 0, freeblock)
  {
    var g := Grown(f, i, s, freeblock);
    assert WithBlock(f, freeblock, Zero()) == f;
    GrownTree(f, owner, i, s, freeblock);
    GrownExtends(f, owner, i, s, freeblock);
    GrownOnlyPath(f, f, owner, i, s, freeblock);
  }

  /** The same slots hold the same blocks. */
  ghost predicate SamePlaces(f: Fs, g: Fs)
  {
    && |g.inodes| == |f.inodes|
    && (forall j :: 0 <= j < |f.inodes| ==> g.inodes[j].size == f.inodes[j].size)
    && forall j, t :: 0 <= j < |f.inodes| && ValidSlot(t) ==> Ptr(g, j, t) == Ptr(f, j, t)
  }

  lemma {:induction false} RewrittenPlaces(f: Fs, owner: map<nat, Owner>, i: nat, s: Slot, b: Block)
    requires Tree(f, owner) && i < |f.inodes| && ValidSlot(s) && IsLeaf(s) && Ptr(f, i, s) != 0
    ensures Ptr(f, i, s) < |f.blocks| && SamePlaces(f, Rewritten(f, i, s, b))
  {
    forall j, t | 0 <= j < |f.inodes| && ValidSlot(t) ensures Ptr(Rewritten(f, i, s, b), j, t) == Ptr(f, j, t) {
      RewrittenPtr(f, owner, i, s, b, j, t);
    }
  }

  lemma {:induction false} SameMapped(f: Fs, g: Fs, j: nat, end: nat)
    requires SamePlaces(f, g) && j < |f.inodes| && Mapped(f, j, end)
    ensures Mapped(g, j, end)
  {
  }

  /** Writing a data block keeps the image well formed. */
  lemma {:induction false} RewriteFresh(f: Fs, owner: map<nat, Owner>, first: nat, freeblock: nat, i: nat, s: Slot, b: Block)
    requires Fresh(f, owner, first, freeblock) && i < |f.inodes| && ValidSlot(s) && IsLeaf(s) && Ptr(f, i, s) != 0
    ensures Ptr(f, i, s) < |f.blocks| && Fresh(Rewritten(f, i, s, b), owner, first, freeblock) && SamePlaces(f, Rewritten(f, i, s, b))
  {
    RewrittenTree(f, owner, i, s, b);
    RewrittenPlaces(f, owner, i, s, b);
    var g := Rewritten(f, i, s, b);
    forall j | 0 <= j < |f.inodes| ensures g.inodes[j].size <= MAXBLOCKS * BSIZE && Mapped(g, j, g.inodes[j].size) {
      SameMapped(f, g, j, f.inodes[j].size);
    }
  }

  /** The bytes up to the end of the block at `at` have a block if that one does. */
  lemma MappedOn(f: Fs, i: nat, at: nat, n: nat)
    requires i < |f.inodes| && Mapped(f, i, at) && n <= (at / BSIZE + 1) * BSIZE - at
    requires at / BSIZE < MAXBLOCKS && Ptr(f, i, SlotOf(at / BSIZE)) != 0
    ensures Mapped(f, i, at + n)
  {
    forall o | at <= o < at + n ensures o / BSIZE == at / BSIZE { SameBlock(at, o - at); }
  }

  lemma RestOfBlock(at: nat, n: nat)
    requires n <= (at / BSIZE + 1) * BSIZE - at
    ensures at % BSIZE + n <= BSIZE
  {
  }

  // ---- how many blocks a step takes ---------------------------------------------------------------

  /** Every file has exactly the slots its bytes need, file i those for `at` bytes. */
  ghost predicate Tight(f: Fs, i: nat, at: nat)
  {
    forall j :: 0 <= j < |f.inodes| ==> FilledTo(f, j, DataBlocks(if j == i then at else f.inodes[j].size))
  }

  /** n bytes more, from `at` on, took exactly the blocks they need. */
  ghost predicate Took(f: Fs, x: nat, g: Fs, y: nat, i: nat, at: nat, n: nat)
  {
    Tight(f, i, at) ==> Tight(g, i, at + n) && y == x + Need(at + n) - Need(at)
  }

  /** There were fewer blocks left than they need. */
  ghost predicate Lacked(f: Fs, x: nat, y: nat, i: nat, at: nat, n: nat)
  {
    Tight(f, i, at) ==> y < x + Need(at + n) - Need(at)
  }

  lemma {:induction false} TookTrans(f: Fs, x: nat, g: Fs, y: nat, h: Fs, z: nat, i: nat, at: nat, m: nat, n: nat)
    requires Took(f, x, g, y, i, at, m)
    ensures Took(g, y, h, z, i, at + m, n) ==> Took(f, x, h, z, i, at, m + n)
    ensures Lacked(g, y, z, i, at + m, n) ==> Lacked(f, x, z, i, at, m + n)
  {
    assert at + m + n == at + (m + n);
  }

  lemma {:induction false} LackedMore(f: Fs, x: nat, y: nat, i: nat, at: nat, m: nat, n: nat)
    requires Lacked(f, x, y, i, at, m) && m <= n
    ensures Lacked(f, x, y, i, at, n)
  {
    CeilingGrow(at + m, at + n, BSIZE);
    AllBlocksGrow(DataBlocks(at + m), DataBlocks(at + n));
  }

  lemma {:induction false} PieceEnds(at: nat, n: nat)
    requires 0 < n <= (at / BSIZE + 1) * BSIZE - at
    ensures DataBlocks(at + n) == at / BSIZE + 1
    ensures at / BSIZE <= DataBlocks(at) <= at / BSIZE + 1
  {
  }

  /** Bytes into the block at `at` take the empty slots on its path, and nothing else. */
  lemma {:induction false} PlacedTakes(f: Fs, x: nat, g: Fs, y: nat, i: nat, at: nat, n: nat, r: Option<nat>)
    requires i < |f.inodes| && at / BSIZE < MAXBLOCKS && 0 < n <= (at / BSIZE + 1) * BSIZE - at
    ensures Placed(f, x, g, y, i, SlotOf(at / BSIZE), r, |g.blocks|) && r.Some? ==> Took(f, x, g, y, i, at, n)
    ensures Placed(f, x, g, y, i, SlotOf(at / BSIZE), r, |g.blocks|) && r.None? ==> Lacked(f, x, y, i, at, n)
  {
    if Tight(f, i, at) && Placed(f, x, g, y, i, SlotOf(at / BSIZE), r, |g.blocks|) {
      PathTakes(f, i, at, n);
      if r.Some? {
        FilledNext(f, g, i, DataBlocks(at), at / BSIZE);
        OthersTight(f, g, i, at, at + n, SlotOf(at / BSIZE));
      }
    }
  }

  lemma {:induction false} PathTakes(f: Fs, i: nat, at: nat, n: nat)
    requires i < |f.inodes| && at / BSIZE < MAXBLOCKS && 0 < n <= (at / BSIZE + 1) * BSIZE - at && Tight(f, i, at)
    ensures FilledTo(f, i, DataBlocks(at)) && at / BSIZE <= DataBlocks(at)
    ensures DataBlocks(at + n) == if at / BSIZE == DataBlocks(at) then DataBlocks(at) + 1 else DataBlocks(at)
    ensures Need(at + n) == Need(at) + EmptyOn(f, i, SlotOf(at / BSIZE))
  {
    PieceEnds(at, n);
    var bn, d := at / BSIZE, DataBlocks(at);
    assert FilledTo(f, i, d);
    if d == bn {
      NextBlockTakes(f, i, d);
    } else {
      OldBlockTakesNone(f, i, d, bn, SlotOf(bn));
    }
  }

  lemma {:induction false} OthersTight(f: Fs, g: Fs, i: nat, at: nat, end: nat, s: Slot)
    requires Tight(f, i, at) && i < |f.inodes| && Extends(f, g) && OnlyPath(f, g, i, s) && FilledTo(g, i, DataBlocks(end))
    ensures Tight(g, i, end)
  {
    forall j | 0 <= j < |f.inodes| && j != i ensures FilledTo(g, j, DataBlocks(f.inodes[j].size)) {
      assert FilledTo(f, j, DataBlocks(f.inodes[j].size));
    }
  }

  lemma {:induction false} TookSame(f: Fs, x: nat, g: Fs, y: nat, h: Fs, i: nat, at: nat, n: nat)
    ensures Took(f, x, g, y, i, at, n) && SamePlaces(g, h) ==> Took(f, x, h, y, i, at, n)
  {
    if Tight(f, i, at) && Took(f, x, g, y, i, at, n) && SamePlaces(g, h) {
      forall j | 0 <= j < |h.inodes| ensures FilledTo(h, j, DataBlocks(if j == i then at + n else h.inodes[j].size)) {
        assert FilledTo(g, j, DataBlocks(if j == i then at + n else g.inodes[j].size));
      }
    }
  }

  /** The loop of iappend: p[..tot] is in place from off on, and every byte up to `at` has a block. */
  ghost predicate Appending(f: Fs, g: Fs, i: nat, off: nat, at: nat, p: seq<Byte>, tot: nat)
  {
    && i < |f.inodes| && tot <= |p| && at == off + tot && off + |p| <= MAXBLOCKS * BSIZE
    && Patched(f, g, i, off, p[..tot]) && Mapped(g, i, at)
  }

  lemma {:induction false} AppendStarts(f: Fs, owner: map<nat, Owner>, first: nat, freeblock: nat, i: nat, off: nat, p: seq<Byte>)
    requires Fresh(f, owner, first, freeblock) && i < |f.inodes| && off == f.inodes[i].size && off + |p| <= MAXBLOCKS * BSIZE
    ensures Appending(f, f, i, off, off, p, 0) && Took(f, freeblock, f, freeblock, i, off, 0)
  {
  }

  lemma {:induction false} AppendEnds(f: Fs, g: Fs, i: nat, off: nat, at: nat, p: seq<Byte>, tot: nat)
    requires Appending(f, g, i, off, at, p, tot) && tot == |p|
    ensures Patched(f, g, i, off, p) && Mapped(g, i, off + |p|)
  {
    assert p[..tot] == p;
  }

  /** A turn of n bytes after the first tot of them, or one that found no block. */
  lemma {:induction false} AppendTurn(f: Fs, x: nat, g: Fs, y: nat, h: Fs, z: nat, i: nat, off: nat, tot: nat, n: nat, all: nat, at: nat, done: nat)
    requires tot < all && at == off + tot && done == tot + n
    ensures Took(f, x, g, y, i, off, tot) && Took(g, y, h, z, i, at, n) ==> Took(f, x, h, z, i, off, done)
    ensures Took(f, x, g, y, i, off, tot) && Lacked(g, y, z, i, at, 1) ==> Lacked(f, x, z, i, off, all)
  {
    if Took(f, x, g, y, i, off, tot) {
      TookTrans(f, x, g, y, h, z, i, off, tot, n);
      if Lacked(g, y, z, i, off + tot, 1) {
        TookTrans(f, x, g, y, h, z, i, off, tot, 1);
        LackedMore(f, x, z, i, off, tot + 1, all);
      }
    }
  }

  lemma {:induction false} AppendingExtends(f: Fs, g: Fs, h: Fs, i: nat, off: nat, at: nat, p: seq<Byte>, tot: nat)
    ensures Appending(f, g, i, off, at, p, tot) && Extends(g, h) ==> Appending(f, h, i, off, at, p, tot)
  {
  }

  lemma {:induction false} PieceStored(f: Fs, g: Fs, owner: map<nat, Owner>, first: nat, freeblock: nat, i: nat, off: nat, at: nat, p: seq<Byte>, tot: nat, n: nat, b: Block)
    requires Appending(f, g, i, off, at, p, tot) && Fresh(g, owner, first, freeblock)
    requires tot + n <= |p| && at / BSIZE < MAXBLOCKS && n <= (at / BSIZE + 1) * BSIZE - at && at % BSIZE + n <= BSIZE
    requires Ptr(g, i, SlotOf(at / BSIZE)) != 0 && Ptr(g, i, SlotOf(at / BSIZE)) < |g.blocks|
    requires b == Splice(g.blocks[Ptr(g, i, SlotOf(at / BSIZE))], at % BSIZE, p[tot..tot + n])
    ensures var h := Rewritten(g, i, SlotOf(at / BSIZE), b);
            Fresh(h, owner, first, freeblock) && Appending(f, h, i, off, at + n, p, tot + n) && SamePlaces(g, h)
  {
    MappedOn(g, i, at, n);
    assert p[..tot + n] == p[..tot] + p[tot..tot + n];
    PatchedRewrite(f, g, owner, i, off, p[..tot], p[tot..tot + n], at, b);
    RewriteFresh(g, owner, first, freeblock, i, SlotOf(at / BSIZE), b);
    SameMapped(g, Rewritten(g, i, SlotOf(at / BSIZE), b), i, at + n);
  }

  lemma {:induction false} BlockInFile(at: nat, end: nat)
    requires at < end <= MAXBLOCKS * BSIZE
    ensures at / BSIZE < MAXBLOCKS && 1 <= (at / BSIZE + 1) * BSIZE - at
  {
  }

  /** min(n, (fbn + 1) * 512 - off). */
  function NextPart(at: nat, left: nat): (n1: nat)
    requires left > 0
    ensures 0 < n1 <= left && n1 <= (at / BSIZE + 1) * BSIZE - at
  {
    var room := (at / BSIZE + 1) * BSIZE - at;
    if left < room then left else room
  }

  class Image {
    const first: nat                 // the first data block
    var blocks: Disk
    var inodes: seq<Inode>
    var freeblock: nat
    var usedblocks: nat
    ghost var owner: map<nat, Owner>

    /** A zeroed image with empty inodes, as main prepares it before any iappend. */
    constructor (n: nat, ninodes: nat, first: nat)
      requires 0 < first && n <= UINT
      ensures Valid() && this.first == first && freeblock == usedblocks == first && |inodes| == ninodes && |blocks| == n
      ensures forall i :: 0 <= i < ninodes ==> inodes[i].size == 0 && Tight(Now(), i, 0)
    {
      blocks := seq(n, _ => Zero());
      inodes := seq(ninodes, _ => Inode(0, seq(NDIRECT + 1, _ => 0)));
      this.first, freeblock, usedblocks := first, first, first;
      owner := map[];
      new;
      forall i, s | 0 <= i < ninodes && ValidSlot(s) ensures Ptr(Now(), i, s) == 0 {
        NoSlots(Now(), i, s);
      }
      forall i | 0 <= i < ninodes ensures Tight(Now(), i, 0) {
        assert forall j :: 0 <= j < ninodes ==> FilledTo(Now(), j, 0);
      }
    }

    ghost function Now(): (f: Fs)
      reads this
    {
      Fs(blocks, inodes)
    }

    ghost predicate Valid()
      reads this
    {
      Fresh(Now(), owner, first, freeblock)
    }

    /** Blocks were only added, and both counts moved together. */
    twostate predicate Added()
      reads this
    {
      Valid() && Extends(old(Now()), Now()) && freeblock - old(freeblock) == usedblocks - old(usedblocks)
    }

    /** if(din.addrs[k] == 0) { din.addrs[k] = freeblock++; usedblocks++; } */
    method FillAddr(i: nat, k: nat) returns (r: Option<nat>)
      requires Valid() && i < |inodes| && k <= NDIRECT
      modifies this
      ensures Added()
      ensures Filled(old(Now()), old(freeblock), Now(), freeblock, i, if k == NDIRECT then Root else Direct(k), r, |blocks|)
    {
      var a: nat := inodes[i].addrs[k];
      if a == 0 {
        if freeblock >= |blocks| {
          return None;
        }
        ghost var s := if k == NDIRECT then Root else Direct(k);
        NextBlock(Now(), owner, first, freeblock, i, s);
        a := freeblock;
        inodes := inodes[i := Inode(inodes[i].size, inodes[i].addrs[k := a])];
        owner := owner[a := Owner(i, s)];
        freeblock, usedblocks := freeblock + 1, usedblocks + 1;
      }
      return Some(a);
    }

    /** rsect(a); if(indirect[k] == 0) { indirect[k] = freeblock++; usedblocks++; wsect(a); } */
    method FillChild(i: nat, ghost p: Slot, q: nat, k: nat) returns (r: Option<nat>)
      requires Valid() && i < |inodes| && k < NINDIRECT
      requires ValidSlot(Child(p, k)) && q == Ptr(Now(), i, p) != 0
      modifies this
      ensures Added()
      ensures Filled(old(Now()), old(freeblock), Now(), freeblock, i, Child(p, k), r, |blocks|)
    {
      var indirect := blocks[q];
      var a: nat := GetWord(indirect, k);
      if a == 0 {
        if freeblock >= |blocks| {
          return None;
        }
        NextBlock(Now(), owner, first, freeblock, i, Child(p, k));
        a := freeblock;
        blocks := blocks[q := SetWord(indirect, k, a)];
        owner := owner[a := Owner(i, Child(p, k))];
        freeblock, usedblocks := freeblock + 1, usedblocks + 1;
      }
      return Some(a);
    }

    /** The block of file block fbn, allocated if missing (the first half of iappend's loop). */
    method Locate(i: nat, fbn: nat) returns (r: Option<nat>)
      requires Valid() && i < |inodes| && fbn < MAXBLOCKS
      modifies this
      ensures Added()
      ensures Placed(old(Now()), old(freeblock), Now(), freeblock, i, SlotOf(fbn), r, |blocks|)
    {
      if fbn < NDIRECT {
        r := FillAddr(i, fbn);
        FilledTop(old(Now()), old(freeblock), Now(), freeblock, i, Direct(fbn), r, |blocks|);
        return;
      }
      var t := fbn - NDIRECT;
      var d1, k1 := t / 128, t % 128;
      var d2, k2 := d1 / 128, d1 % 128;
      var k3 := d2 % 128;
      TreeSlot(fbn, t, k3, k2, k1);
      r := LocateTree(i, k3, k2, k1);
    }

    method LocateTree(i: nat, k3: nat, k2: nat, k1: nat) returns (r: Option<nat>)
      requires Valid() && i < |inodes| && k3 < NINDIRECT && k2 < NINDIRECT && k1 < NINDIRECT
      modifies this
      ensures Added()
      ensures Placed(old(Now()), old(freeblock), Now(), freeblock, i, Leaf(k3, k2, k1), r, |blocks|)
    {
      r := LocateTop(i, k3);
      if r.None? {
        NoneBelow(old(Now()), old(freeblock), Now(), freeblock, i, Child(Root, k3), k2, |blocks|);
        NoneBelow(old(Now()), old(freeblock), Now(), freeblock, i, Child(Child(Root, k3), k2), k1, |blocks|);
        return;
      }
      r := LocateBelow(i, Child(Root, k3), r.value, k2, old(Now()), old(freeblock));
      if r.None? {
        NoneBelow(old(Now()), old(freeblock), Now(), freeblock, i, Child(Child(Root, k3), k2), k1, |blocks|);
        return;
      }
      r := LocateBelow(i, Child(Child(Root, k3), k2), r.value, k1, old(Now()), old(freeblock));
    }

    method LocateTop(i: nat, k3: nat) returns (r: Option<nat>)
      requires Valid() && i < |inodes| && k3 < NINDIRECT
      modifies this
      ensures Added() && ValidSlot(Child(Root, k3))
      ensures Placed(old(Now()), old(freeblock), Now(), freeblock, i, Child(Root, k3), r, |blocks|)
    {
      r := FillAddr(i, NDIRECT);
      FilledTop(old(Now()), old(freeblock), Now(), freeblock, i, Root, r, |blocks|);
      if r.None? {
        NoneBelow(old(Now()), old(freeblock), Now(), freeblock, i, Root, k3, |blocks|);
        return;
      }
      r := LocateBelow(i, Root, r.value, k3, old(Now()), old(freeblock));
    }

    /** One level further down. */
    method LocateBelow(i: nat, ghost p: Slot, q: nat, k: nat, ghost f: Fs, ghost x: nat) returns (r: Option<nat>)
      requires Valid() && i < |inodes| == |f.inodes| && k < NINDIRECT && ValidSlot(Child(p, k))
      requires Placed(f, x, Now(), freeblock, i, p, Some(q), |blocks|)
      modifies this
      ensures Added()
      ensures Placed(f, x, Now(), freeblock, i, Child(p, k), r, |blocks|)
    {
      r := FillChild(i, p, q, k);
      FilledBelow(f, x, old(Now()), old(freeblock), Now(), freeblock, i, p, q, k, r, |blocks|);
    }

    /** The second half of iappend's loop: rsect, bcopy, wsect of one data block. */
    method PutPiece(i: nat, ghost off: nat, at: nat, x: nat, p: seq<Byte>, tot: nat, n1: nat, ghost f: Fs)
      requires Valid() && Appending(f, Now(), i, off, at, p, tot)
      requires tot + n1 <= |p| && at / BSIZE < MAXBLOCKS && n1 <= (at / BSIZE + 1) * BSIZE - at
      requires x == Ptr(Now(), i, SlotOf(at / BSIZE)) != 0
      modifies this`blocks
      ensures Valid() && Appending(f, Now(), i, off, at + n1, p, tot + n1) && SamePlaces(old(Now()), Now())
    {
      RestOfBlock(at, n1);
      var buf := Splice(blocks[x], at % BSIZE, p[tot..tot + n1]);
      PieceStored(f, Now(), owner, first, freeblock, i, off, at, p, tot, n1, buf);
      blocks := blocks[x := buf];
    }

    /** One turn of iappend's loop. */
    method AppendPiece(i: nat, off: nat, at: nat, p: seq<Byte>, tot: nat, ghost f: Fs) returns (n1: nat)
      requires Valid() && Appending(f, Now(), i, off, at, p, tot) && tot < |p|
      modifies this
      ensures Valid() && tot + n1 <= |p| && Appending(f, Now(), i, off, at + n1, p, tot + n1)
      ensures freeblock - old(freeblock) == usedblocks - old(usedblocks)
      ensures n1 == 0 ==> freeblock >= |blocks| && Lacked(old(Now()), old(freeblock), freeblock, i, at, 1)
      ensures n1 == 0 || Took(old(Now()), old(freeblock), Now(), freeblock, i, at, n1)
    {
      var fbn := at / BSIZE;
      BlockInFile(at, off + |p|);
      ghost var g := Now();
      var x := Locate(i, fbn);
      AppendingExtends(f, g, Now(), i, off, at, p, tot);
      if x.None? {
        PlacedTakes(g, old(freeblock), Now(), freeblock, i, at, 1, x);
        return 0;
      }
      n1 := NextPart(at, |p| - tot);
      ghost var h := Now();
      PlacedTakes(g, old(freeblock), h, freeblock, i, at, n1, x);
      PutPiece(i, off, at, x.value, p, tot, n1, f);
      TookSame(g, old(freeblock), h, freeblock, Now(), i, at, n1);
    }

    /** The same, counted from the first turn on. */
    method AppendNext(i: nat, off: nat, at: nat, p: seq<Byte>, tot: nat, ghost f: Fs, ghost x0: nat) returns (n1: nat, end: nat, done: nat)
      requires Valid() && Appending(f, Now(), i, off, at, p, tot) && tot < |p|
      requires Took(f, x0, Now(), freeblock, i, off, tot)
      modifies this
      ensures Valid() && end == at + n1 && done == tot + n1 <= |p| && Appending(f, Now(), i, off, end, p, done)
      ensures freeblock - old(freeblock) == usedblocks - old(usedblocks)
      ensures n1 == 0 ==> freeblock >= |blocks| && Lacked(f, x0, freeblock, i, off, |p|)
      ensures n1 == 0 || Took(f, x0, Now(), freeblock, i, off, done)
    {
      n1 := AppendPiece(i, off, at, p, tot, f);
      end, done := at + n1, tot + n1;
      AppendTurn(f, x0, old(Now()), old(freeblock), Now(), freeblock, i, off, tot, n1, |p|, at, done);
    }

    /** The loop of iappend. */
    method AppendAll(i: nat, off: nat, p: seq<Byte>) returns (ok: bool)
      requires Valid() && i < |inodes| && off == inodes[i].size && off + |p| <= MAXBLOCKS * BSIZE
      modifies this
      ensures Valid() && |inodes| == |old(inodes)| && |blocks| == |old(blocks)|
      ensures freeblock - old(freeblock) == usedblocks - old(usedblocks)
      ensures ok ==> Appending(old(Now()), Now(), i, off, off + |p|, p, |p|)
      ensures ok ==> Took(old(Now()), old(freeblock), Now(), freeblock, i, off, |p|)
      ensures !ok ==> freeblock >= |blocks| && Lacked(old(Now()), old(freeblock), freeblock, i, off, |p|)
    {
      var at, tot := off, 0;
      ghost var f, x0 := Now(), freeblock;
      AppendStarts(f, owner, first, x0, i, off, p);
      while tot < |p|
        invariant tot <= |p| && Valid() && Appending(f, Now(), i, off, at, p, tot)
        invariant Took(f, x0, Now(), freeblock, i, off, tot)
        invariant freeblock - x0 == usedblocks - old(usedblocks)
      {
        var n1;
        n1, at, tot := AppendNext(i, off, at, p, tot, f, x0);
        if n1 == 0 {
          return false;
        }
      }
      return true;
    }

    /** iappend (mkfs.c): the bytes go to the end of the file, and no other file changes.  It
        takes the blocks the longer file needs beyond those it had, and stops early only when
        the image has fewer left. */
    method Iappend(i: nat, p: seq<Byte>) returns (ok: bool)
      requires Valid() && i < |inodes| && inodes[i].size as int + |p| <= MAXBLOCKS * BSIZE
      modifies this
      ensures Valid() && |inodes| == |old(inodes)| && |blocks| == |old(blocks)|
      ensures freeblock - old(freeblock) == usedblocks - old(usedblocks)
      ensures !ok ==> freeblock >= |blocks| && Lacked(old(Now()), old(freeblock), freeblock, i, old(inodes)[i].size, |p|)
      ensures ok ==> Contents(Now(), i) == Contents(old(Now()), i) + p
      ensures ok ==> forall j :: 0 <= j < |inodes| && j != i ==> Contents(Now(), j) == Contents(old(Now()), j)
      ensures ok ==> Took(old(Now()), old(freeblock), Now(), freeblock, i, old(inodes)[i].size, |p|)
      ensures ok ==> inodes[i].size == old(inodes)[i].size + |p|
    {
      var off: nat := inodes[i].size;
      ghost var f, x0 := Now(), freeblock;
      ok := AppendAll(i, off, p);
      if ok {
        ghost var g := Now();
        AppendEnds(f, g, i, off, off + |p|, p, |p|);
        inodes := inodes[i := Inode(off + |p|, inodes[i].addrs)];
        FileAppended(f, g, Now(), owner, first, freeblock, i, off, p);
        GrewContents(f, Now(), i, off, p);
        TookResized(f, x0, g, freeblock, Now(), i, off, |p|);
      }
    }
  }

  lemma {:induction false} TookResized(f: Fs, x: nat, g: Fs, y: nat, h: Fs, i: nat, at: nat, n: nat)
    requires Took(f, x, g, y, i, at, n) && h.blocks == g.blocks && |h.inodes| == |g.inodes|
    requires forall j :: 0 <= j < |g.inodes| ==> h.inodes[j].addrs == g.inodes[j].addrs
    requires forall j :: 0 <= j < |g.inodes| && j != i ==> h.inodes[j].size == g.inodes[j].size
    ensures Took(f, x, h, y, i, at, n)
  {
    if Tight(f, i, at) {
      forall j, s | 0 <= j < |h.inodes| && ValidSlot(s) ensures Ptr(h, j, s) == Ptr(g, j, s) { ResizedPtr(g, h, j, s); }
      forall j | 0 <= j < |h.inodes| ensures FilledTo(h, j, DataBlocks(if j == i then at + n else h.inodes[j].size)) {
        assert FilledTo(g, j, DataBlocks(if j == i then at + n else g.inodes[j].size));
      }
    }
  }

  lemma ResizedFresh(f: Fs, g: Fs, owner: map<nat, Owner>, first: nat, freeblock: nat)
    requires Fresh(f, owner, first, freeblock) && g.blocks == f.blocks && |g.inodes| == |f.inodes|
    requires forall j :: 0 <= j < |f.inodes| ==> g.inodes[j].addrs == f.inodes[j].addrs
    requires forall j :: 0 <= j < |f.inodes| ==> g.inodes[j].size <= MAXBLOCKS * BSIZE && Mapped(f, j, g.inodes[j].size)
    ensures Fresh(g, owner, first, freeblock)
    ensures forall j, o :: 0 <= j < |f.inodes| && 0 <= o < MAXBLOCKS * BSIZE ==> FileByte(g, j, o) == FileByte(f, j, o)
  {
    forall j, t | 0 <= j < |f.inodes| && ValidSlot(t) ensures Ptr(g, j, t) == Ptr(f, j, t) {
      ResizedPtr(f, g, j, t);
    }
  }

  /** The bytes p in place beyond the end of file i, and then the new size. */
  lemma {:induction false} FileAppended(f: Fs, g: Fs, h: Fs, owner: map<nat, Owner>, first: nat, freeblock: nat, i: nat, off: nat, p: seq<Byte>)
    requires i < |f.inodes| && off == f.inodes[i].size && off + |p| <= MAXBLOCKS * BSIZE
    requires Patched(f, g, i, off, p) && Fresh(g, owner, first, freeblock) && Mapped(g, i, off + |p|)
    requires h == Fs(g.blocks, g.inodes[i := Inode(off + |p|, g.inodes[i].addrs)])
    ensures Fresh(h, owner, first, freeblock)
    ensures Grew(f, h, i, off, p)
  {
    ResizedFresh(g, h, owner, first, freeblock);
  }

  /** From f to h file i became longer by p and no other byte changed. */
  ghost predicate Grew(f: Fs, h: Fs, i: nat, off: nat, p: seq<Byte>)
  {
    && |h.inodes| == |f.inodes| && i < |f.inodes| && off == f.inodes[i].size
    && (forall j :: 0 <= j < |f.inodes| ==> f.inodes[j].size <= MAXBLOCKS * BSIZE && h.inodes[j].size <= MAXBLOCKS * BSIZE)
    && (forall j, o :: 0 <= j < |f.inodes| && 0 <= o < MAXBLOCKS * BSIZE ==>
          FileByte(h, j, o) == (if j == i && off <= o < off + |p| then p[o - off] else FileByte(f, j, o)))
    && forall j :: 0 <= j < |f.inodes| ==> h.inodes[j].size == (if j == i then off + |p| else f.inodes[j].size)
  }

  lemma {:induction false} GrewContents(f: Fs, h: Fs, i: nat, off: nat, p: seq<Byte>)
    requires Grew(f, h, i, off, p)
    ensures Contents(h, i) == Contents(f, i) + p
    ensures forall j :: 0 <= j < |f.inodes| && j != i ==> Contents(h, j) == Contents(f, j)
  {
    PatchedContents(f, h, i, off, p);
  }

  function Concat(pieces: seq<seq<Byte>>): (r: seq<Byte>)
  {
    if pieces == [] then [] else Concat(pieces[..|pieces| - 1]) + pieces[|pieces| - 1]
  }

  lemma {:induction false} ConcatPrefix(pieces: seq<seq<Byte>>, k: nat)
    requires k <= |pieces|
    ensures |Concat(pieces[..k])| <= |Concat(pieces)|
    decreases |pieces|
  {
    if k < |pieces| {
      ConcatPrefix(pieces[..|pieces| - 1], k);
      assert pieces[..|pieces| - 1][..k] == pieces[..k];
    } else {
      assert pieces[..k] == pieces;
    }
  }

  /** Piece k appended to a file that holds those before it. */
  lemma {:induction false} NextPiece(f: Fs, x: nat, g: Fs, y: nat, h: Fs, z: nat, i: nat, pieces: seq<seq<Byte>>, k: nat)
    requires k < |pieces| && i < |g.inodes| && g.inodes[i].size <= MAXBLOCKS * BSIZE && Contents(g, i) == Concat(pieces[..k])
    requires |Concat(pieces)| <= MAXBLOCKS * BSIZE
    ensures g.inodes[i].size == |Concat(pieces[..k])| && Concat(pieces[..k + 1]) == Concat(pieces[..k]) + pieces[k]
    ensures g.inodes[i].size + |pieces[k]| <= MAXBLOCKS * BSIZE
    ensures var at, n := |Concat(pieces[..k])|, |pieces[k]|;
            && (Took(f, x, g, y, i, 0, at) && Took(g, y, h, z, i, at, n) ==> Took(f, x, h, z, i, 0, |Concat(pieces[..k + 1])|))
            && (Took(f, x, g, y, i, 0, at) && Lacked(g, y, z, i, at, n) ==> Lacked(f, x, z, i, 0, |Concat(pieces)|))
  {
    var at, n := |Concat(pieces[..k])|, |pieces[k]|;
    ConcatPrefix(pieces, k + 1);
    assert pieces[..k + 1][..k] == pieces[..k];
    if Took(f, x, g, y, i, 0, at) {
      TookTrans(f, x, g, y, h, z, i, 0, at, n);
      if Lacked(g, y, z, i, at, n) { LackedMore(f, x, z, i, 0, at + n, |Concat(pieces)|); }
    }
  }

  /** A file appended to in any pieces holds their concatenation, and takes the blocks that needs. */
  method WriteFile(m: Image, i: nat, pieces: seq<seq<Byte>>) returns (ok: bool)
    requires m.Valid() && i < |m.inodes| && m.inodes[i].size == 0 && |Concat(pieces)| <= MAXBLOCKS * BSIZE
    modifies m
    ensures ok ==> m.Valid() && |m.inodes| == |old(m.inodes)| && |m.blocks| == |old(m.blocks)| && Contents(m.Now(), i) == Concat(pieces)
    ensures ok ==> Took(old(m.Now()), old(m.freeblock), m.Now(), m.freeblock, i, 0, |Concat(pieces)|)
    ensures !ok ==> m.freeblock >= |m.blocks| == |old(m.blocks)| && Lacked(old(m.Now()), old(m.freeblock), m.freeblock, i, 0, |Concat(pieces)|)
  {
    var k := 0;
    ghost var f, x0 := m.Now(), m.freeblock;
    assert pieces[..0] == [];
    while k < |pieces|
      invariant 0 <= k <= |pieces| && m.Valid() && |m.inodes| == |f.inodes| && |m.blocks| == |f.blocks|
      invariant Contents(m.Now(), i) == Concat(pieces[..k])
      invariant Took(f, x0, m.Now(), m.freeblock, i, 0, |Concat(pieces[..k])|)
    {
      ghost var g, y := m.Now(), m.freeblock;
      NextPiece(f, x0, g, y, g, y, i, pieces, k);
      ok := m.Iappend(i, pieces[k]);
      NextPiece(f, x0, g, y, m.Now(), m.freeblock, i, pieces, k);
      if !ok {
        return;
      }
      k := k + 1;
    }
    assert pieces[..k] == pieces;
    return true;
  }

  // ---- the kernel's view of the image ---------------------------------------------------------

  /** The image with a bitmap as the kernel reads it: everything below freeblock is in use, and
      so is everything from the end of the data area on. */
  function Stamped(sb: Super, d: Disk, freeblock: nat): (r: Disk)
    requires Layout(sb, d) && freeblock <= sb.hi
  {
    MarkRange(sb, MarkRange(sb, d, 0, freeblock), sb.hi, sb.size)
  }

  ghost function InUse(sb: Super, freeblock: nat): (s: set<nat>)
  {
    Range(0, freeblock) + Range(sb.hi, sb.size)
  }

  lemma StampedBits(sb: Super, d: Disk, freeblock: nat)
    requires Layout(sb, d) && freeblock <= sb.hi && forall s :: 0 <= s < sb.lo ==> d[s] == Zero()
    ensures BitsAre(sb, Stamped(sb, d, freeblock), InUse(sb, freeblock))
    ensures |Stamped(sb, d, freeblock)| == |d| && forall s :: sb.lo <= s < |d| ==> Stamped(sb, d, freeblock)[s] == d[s]
  {
    ZeroBits(sb, d);
    var low, some := MarkRangeBits(sb, d, {}, 0, freeblock);
    assert some == Range(0, freeblock);
    var r, all := MarkRangeBits(sb, low, some, sb.hi, sb.size);
    forall s | sb.lo <= s < |d| ensures Stamped(sb, d, freeblock)[s] == d[s] {
      MarkRangeData(sb, d, 0, freeblock, s);
      MarkRangeData(sb, MarkRange(sb, d, 0, freeblock), sb.hi, sb.size, s);
    }
  }

  /** The superblock describes the image, and its data blocks end at most at sb.hi. */
  ghost predicate Fits(sb: Super, d: Disk, first: nat, freeblock: nat)
  {
    Layout(sb, d) && sb.lo == first && freeblock <= sb.hi
  }

  /** The kernel finds a consistent volume without leaks, holding the same files. */
  lemma StampedVolume(sb: Super, f: Fs, owner: map<nat, Owner>, first: nat, freeblock: nat)
    requires Fresh(f, owner, first, freeblock) && Fits(sb, f.blocks, first, freeblock)
    ensures var g := Fs(Stamped(sb, f.blocks, freeblock), f.inodes);
            && Consistent(sb, g, owner, InUse(sb, freeblock)) && NoLeak(sb, owner, InUse(sb, freeblock))
            && forall i :: 0 <= i < |f.inodes| ==> Contents(g, i) == Contents(f, i) && Mapped(g, i, g.inodes[i].size)
  {
    var g := Fs(Stamped(sb, f.blocks, freeblock), f.inodes);
    StampedBits(sb, f.blocks, freeblock);
    UnownedTree(f, g, owner);
    forall i | 0 <= i < |f.inodes| ensures Contents(g, i) == Contents(f, i) && Mapped(g, i, g.inodes[i].size) {
      assert Mapped(f, i, f.inodes[i].size);
    }
  }

  /** Writer/reader agreement: what mkfs appended reads back byte for byte through the kernel's
      readi and bmap, which find every block and allocate none. */
  method ReadBack(m: Image, i: nat, sb: Super, off: Word, n: Word) returns (r: Io, dst: seq<Byte>)
    requires m.Valid() && i < |m.inodes| && Fits(sb, m.blocks, m.first, m.freeblock)
    ensures r.Failed? <==> off > |Contents(m.Now(), i)| || off + n >= UINT
    ensures !r.Panicked?
    ensures r.Done? ==> off <= |Contents(m.Now(), i)| && dst == Slice(Contents(m.Now(), i), off, n) && r.count == |dst|
  {
    StampedVolume(sb, m.Now(), m.owner, m.first, m.freeblock);
    var v := new Volume(sb, Stamped(sb, m.blocks, m.freeblock), m.inodes, m.owner, InUse(sb, m.freeblock));
    r, dst := v.Readi(i, off, n);
  }

  /** The superblock main makes for an image of `size` sectors, whose data blocks begin after the
      bitmap and end at hi. */
  function MakeSuper(size: nat, ninodes: nat, hi: nat): (sb: Super)
  {
    Super(size, ninodes, ninodes / IPB + 3 + (size / BPB + 1), hi)
  }

  /** The sector of an inode, 0 to ninodes, and of a block's bit, 0 to size. */
  ghost predicate InodeSector(ninodes: nat, s: nat)
  {
    exists i: nat :: i <= ninodes && IBlock(i) == s
  }

  ghost predicate BitmapSector(sb: Super, size: nat, s: nat)
  {
    exists b: nat :: b <= size && BBlock(sb, b) == s
  }

  /** The sectors before the data are the boot sector, the superblock, those of the inodes and those
      of the bitmap, one after the other with no gap and no overlap. */
  lemma {:induction false} RegionsMeet(size: nat, ninodes: nat, hi: nat, s: nat)
    ensures var sb := MakeSuper(size, ninodes, hi);
            && (s < sb.lo <==> s < 2 || InodeSector(ninodes, s) || BitmapSector(sb, size, s))
            && (s < 2 ==> !InodeSector(ninodes, s)) && (InodeSector(ninodes, s) ==> s < BBlock(sb, 0))
            && (BitmapSector(sb, size, s) ==> s >= BBlock(sb, 0))
            && BBlock(sb, 0) == IBlock(ninodes) + 1 && sb.lo == BBlock(sb, size) + 1
  {
    var sb := MakeSuper(size, ninodes, hi);
    if 2 <= s <= ninodes / IPB + 2 {
      assert (s - 2) * IPB <= ninodes && IBlock((s - 2) * IPB) == s;
    } else if BBlock(sb, 0) <= s <= BBlock(sb, size) {
      var k := s - BBlock(sb, 0);
      assert k * BPB <= size && BBlock(sb, k * BPB) == s;
    }
  }

  lemma SuperFits(size: nat, ninodes: nat, hi: nat, d: Disk)
    requires 0 < size < 0x8000_0000 && |d| == size && MakeSuper(size, ninodes, hi).lo <= hi <= size
    ensures Layout(MakeSuper(size, ninodes, hi), d)
  {
  }

  /** From an empty image to a read by the kernel: a file appended in any pieces, up to the
      longest the index can hold, fits if and only if the blocks its length needs fit between the
      bitmap and hi, and then the kernel reads any slice of the pieces' concatenation. */
  method WriteThenRead(size: nat, ninodes: nat, hi: nat, i: nat, pieces: seq<seq<Byte>>, off: Word, n: Word)
      returns (fits: bool, r: Io, dst: seq<Byte>)
    requires 0 < size < 0x8000_0000 && MakeSuper(size, ninodes, hi).lo <= hi <= size && i < ninodes
    requires |Concat(pieces)| <= MAXBLOCKS * BSIZE
    ensures fits <==> MakeSuper(size, ninodes, hi).lo + Need(|Concat(pieces)|) <= hi
    ensures fits <==> BBlock(MakeSuper(size, ninodes, hi), size) + Need(|Concat(pieces)|) < hi
    ensures fits ==> !r.Panicked? && (r.Failed? <==> off > |Concat(pieces)| || off + n >= UINT)
    ensures fits && r.Done? ==> off <= |Concat(pieces)| && dst == Slice(Concat(pieces), off, n) && r.count == |dst|
  {
    var sb := MakeSuper(size, ninodes, hi);
    RegionsMeet(size, ninodes, hi, 0);
    var m, ok := BuildImage(size, ninodes, sb.lo, i, pieces);
    if !ok || m.freeblock > hi {
      return false, Failed, [];
    }
    SuperFits(size, ninodes, hi, m.blocks);
    r, dst := ReadBack(m, i, sb, off, n);
    fits := true;
  }

  /** The image with one file, which takes exactly the blocks its length needs. */
  method BuildImage(size: nat, ninodes: nat, first: nat, i: nat, pieces: seq<seq<Byte>>) returns (m: Image, ok: bool)
    requires 0 < first && size <= UINT && i < ninodes && |Concat(pieces)| <= MAXBLOCKS * BSIZE
    ensures ok ==> m.Valid() && m.first == first && |m.blocks| == size && |m.inodes| == ninodes && Contents(m.Now(), i) == Concat(pieces)
    ensures ok ==> m.freeblock == first + Need(|Concat(pieces)|)
    ensures !ok ==> size < first + Need(|Concat(pieces)|)
  {
    m := new Image(size, ninodes, first);
    ok := WriteFile(m, i, pieces);
  }

  // ---- mkfs's own bitmap -------------------------------------------------------------------

  /** Bit k of a block. */
  predicate BitOf(b: Block, k: nat)
    requires k < BPB
  {
    Bit(ByteAt(b, k / 8), k % 8)
  }

  /** buf[k/8] |= 1 << (k%8). */
  function WithBit(b: Block, k: nat): (r: Block)
    requires k < BPB
  {
    Splice(b, k / 8, [PutByteBit(ByteAt(b, k / 8), k % 8, true)])
  }

  lemma {:induction false} WithBitSets(b: Block, k: nat, j: nat)
    requires k < BPB && j < BPB
    ensures BitOf(WithBit(b, k), j) <==> j == k || BitOf(b, j)
  {
    if j / 8 == k / 8 && j != k {
      assert j % 8 != k % 8;
      PutBitOthers(ByteAt(b, k / 8), k % 8, true, j % 8);
    }
  }

  lemma {:induction false} ZeroHasNoBit(k: nat)
    requires k < BPB
    ensures !BitOf(Zero(), k)
  {
    ZeroBytes(k / 8);
    NoBit(k % 8);
  }

  lemma {:induction false} MarkedIsBit(sb: Super, d: Disk, b: nat)
    requires Layout(sb, d) && b < sb.size
    ensures BBlock(sb, b) < |d| && (Marked(sb, d, b) <==> BitOf(d[BBlock(sb, b)], b % BPB))
  {
    BBlockBound(sb, b);
  }

  /** A block with the first n bits set. */
  ghost predicate FirstBits(b: Block, n: nat)
  {
    forall k :: 0 <= k < BPB ==> (BitOf(b, k) <==> k < n)
  }

  /** The inner loop of mkfs's balloc. */
  method Fill(n: nat) returns (buf: Block)
    requires n <= PERBLOCK
    ensures FirstBits(buf, n)
  {
    buf := Zero();
    forall k | 0 <= k < BPB ensures !BitOf(buf, k) { ZeroHasNoBit(k); }
    for i := 0 to n
      invariant FirstBits(buf, i)
    {
      var next := WithBit(buf, i);
      forall k | 0 <= k < BPB ensures BitOf(next, k) <==> k < i + 1 { WithBitSets(buf, i, k); }
      buf := next;
    }
  }

  const PERBLOCK: nat := 512      // bits mkfs sets in a bitmap block; the kernel reads BPB

  /** mkfs's balloc: PERBLOCK bits to each sector from `base` on, and then the last buffer once
      more over the first sector. */
  method Balloc(d: Disk, base: nat, used: nat) returns (e: Disk)
    requires 0 < used && base + (used - 1) / PERBLOCK < |d|
    ensures |e| == |d| && FirstBits(e[base], (used - 1) % PERBLOCK + 1)
    ensures forall s :: 0 <= s < |d| && !(base <= s <= base + (used - 1) / PERBLOCK) ==> e[s] == d[s]
  {
    e := d;
    var left: int, j: nat, buf := used, 0, Zero();
    while left > 0
      invariant |e| == |d| && left == used - PERBLOCK * j && j <= (used - 1) / PERBLOCK + 1
      invariant forall s :: 0 <= s < |d| && !(base <= s < base + j) ==> e[s] == d[s]
      invariant left <= 0 ==> FirstBits(buf, (used - 1) % PERBLOCK + 1)
      decreases left
    {
      buf := Fill(if left < PERBLOCK then left else PERBLOCK);
      e := e[base + j := buf];
      left, j := left - PERBLOCK, j + 1;
      LastTurn(used, j);
    }
    e := e[base := buf];
  }

  lemma LastTurn(used: nat, j: nat)
    requires 1 <= j && used > PERBLOCK * (j - 1)
    ensures j <= (used - 1) / PERBLOCK + 1
    ensures used <= PERBLOCK * j ==> used - PERBLOCK * (j - 1) == (used - 1) % PERBLOCK + 1
  {
  }

  /** e is d with what mkfs's balloc leaves of `used` blocks. */
  ghost predicate MkfsBits(sb: Super, d: Disk, used: nat, e: Disk)
  {
    && Layout(sb, d) && 0 < used <= sb.hi && (forall s :: 0 <= s < sb.lo ==> d[s] == Zero())
    && |e| == |d| && FirstBits(e[BBlock(sb, 0)], (used - 1) % PERBLOCK + 1)
    && forall s :: 0 <= s < |d| && !(BBlock(sb, 0) <= s <= BBlock(sb, 0) + (used - 1) / PERBLOCK) ==> e[s] == d[s]
  }

  /** It marks the blocks it was told of if there are at most PERBLOCK of them, and of more it
      misses the one after those. */
  lemma {:induction false} MkfsMarks(sb: Super, d: Disk, used: nat, e: Disk)
    requires MkfsBits(sb, d, used, e)
    ensures used <= PERBLOCK ==> BitsAre(sb, e, Range(0, used))
    ensures used > PERBLOCK ==> !Marked(sb, e, PERBLOCK)
  {
    if used > PERBLOCK {
      LastMissed(used);
      MarkedIsBit(sb, e, PERBLOCK);
    } else {
      OneSectorOnly(sb, d, used, e);
    }
  }

  lemma LastMissed(used: nat)
    ensures (used - 1) % PERBLOCK + 1 <= PERBLOCK < BPB && PERBLOCK / BPB == 0
  {
  }

  lemma {:induction false} OneSectorOnly(sb: Super, d: Disk, used: nat, e: Disk)
    requires MkfsBits(sb, d, used, e) && used <= PERBLOCK
    ensures BitsAre(sb, e, Range(0, used))
  {
    assert (used - 1) / PERBLOCK == 0 && (used - 1) % PERBLOCK == used - 1;
    forall b {:trigger Marked(sb, e, b)} | 0 <= b < sb.size ensures Marked(sb, e, b) <==> b < used {
      OneSectorBits(sb, e, used, b);
    }
  }

  /** What mkfs's balloc leaves is the bitmap of the blocks in use, the log's among them, if and
      only if there are at most PERBLOCK and no sector lies beyond the data area. */
  lemma {:induction false} MkfsBitmapIff(sb: Super, d: Disk, used: nat, e: Disk)
    requires MkfsBits(sb, d, used, e)
    ensures BitsAre(sb, e, InUse(sb, used)) <==> used <= PERBLOCK && sb.hi == sb.size
  {
    MkfsMarks(sb, d, used, e);
    if used <= PERBLOCK && sb.hi == sb.size {
      assert InUse(sb, used) == Range(0, used);
    }
    if used <= PERBLOCK && sb.hi < sb.size {
      assert Marked(sb, e, sb.hi) <==> sb.hi in Range(0, used);
    }
  }

  /** On the bitmap mkfs leaves, the kernel hands out the free data blocks one by one, and then
      the first sector of the log, zeroed. */
  method HandsOutLog(sb: Super, d: Disk, used: nat) returns (v: Volume, given: seq<nat>)
    requires Layout(sb, d) && sb.lo <= used <= sb.hi < sb.size && used <= PERBLOCK
    requires forall s :: 0 <= s < sb.lo ==> d[s] == Zero()
    ensures |given| == sb.hi - used + 1 && forall k :: 0 <= k < |given| ==> given[k] == used + k
    ensures fresh(v) && v.sb == sb && BitsAre(sb, v.blocks, Range(0, sb.hi + 1)) && v.blocks[sb.hi] == Zero()
  {
    var e := Balloc(d, BBlock(sb, 0), used);
    MkfsMarks(sb, d, used, e);
    v := new Volume(sb, e, [], map[], Range(0, used));
    given := TakeAll(v, used);
  }

  method TakeAll(v: Volume, used: nat) returns (given: seq<nat>)
    requires BitsAre(v.sb, v.blocks, v.used) && v.used == Range(0, used) && v.sb.lo <= used <= v.sb.hi < v.sb.size
    modifies v
    ensures |given| == v.sb.hi - used + 1 && forall k :: 0 <= k < |given| ==> given[k] == used + k
    ensures BitsAre(v.sb, v.blocks, Range(0, v.sb.hi + 1)) && v.blocks[v.sb.hi] == Zero()
  {
    given := [];
    for k := used to v.sb.hi + 1
      invariant BitsAre(v.sb, v.blocks, v.used) && v.used == Range(0, k)
      invariant |given| == k - used && forall j :: 0 <= j < |given| ==> given[j] == used + j
      invariant k == v.sb.hi + 1 ==> v.blocks[v.sb.hi] == Zero()
    {
      var r := TakeNext(v, k);
      given := given + [r.value];
    }
  }

  /** With the first k blocks in use, block k is handed out. */
  method TakeNext(v: Volume, k: nat) returns (r: Option<nat>)
    requires BitsAre(v.sb, v.blocks, v.used) && v.used == Range(0, k) && v.sb.lo <= k < v.sb.size
    modifies v
    ensures r == Some(k) && BitsAre(v.sb, v.blocks, v.used) && v.used == Range(0, k + 1) && v.blocks[k] == Zero()
  {
    assert k !in v.used;
    ghost var m;
    r, m := v.Balloc();
    assert r.Some?;
    assert r.value == k;
    BitsFrame(v.sb, m, v.blocks, v.used);
    RangeNext({}, 0, k);
    assert {} + Range(0, k) == Range(0, k) && {} + Range(0, k + 1) == Range(0, k + 1);
  }

  lemma {:induction false} OneSectorBits(sb: Super, e: Disk, used: nat, b: nat)
    requires Layout(sb, e) && used <= BPB && b < sb.size && FirstBits(e[BBlock(sb, 0)], used)
    requires forall s :: BBlock(sb, 0) < s < sb.lo ==> e[s] == Zero()
    ensures Marked(sb, e, b) <==> b < used
  {
    MarkedIsBit(sb, e, b);
    BBlockBound(sb, b);
    if b >= BPB {
      assert BBlock(sb, b) > BBlock(sb, 0);
      ZeroHasNoBit(b % BPB);
    } else {
      assert BBlock(sb, b) == BBlock(sb, 0) && b % BPB == b;
    }
  }

  lemma {:induction false} NoSlots(f: Fs, i: nat, s: Slot)
    requires i < |f.inodes| && ValidSlot(s) && forall k :: 0 <= k <= NDIRECT ==> f.inodes[i].addrs[k] == 0
    ensures Ptr(f, i, s) == 0
    decreases s
  {
    match s
    case Direct(_) =>
    case Root =>
    case Child(p, k) => NoSlots(f, i, p);
  }
}
