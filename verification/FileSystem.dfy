/** The block allocator, block map and file read/write of fs.c, over the sectors as the
    buffer cache shows them. */
module FileSystem {
  import opened Wrappers
  import opened Blocks
  import opened Bitmap
  import opened FileIndex
  import opened Volumes
  import opened Allocation

  class Volume {
    const sb: Super
    var blocks: Disk
    var inodes: seq<Inode>
    ghost var owner: map<nat, Owner>
    ghost var used: set<nat>
    var calls: seq<nat>              // what log_write has been called with, one by one
    var logged: set<nat>             // the sectors among them

    constructor (sb: Super, blocks: Disk, inodes: seq<Inode>, ghost owner: map<nat, Owner>, ghost used: set<nat>)
      ensures Now() == Fs(blocks, inodes) && this.owner == owner && this.used == used && this.sb == sb && logged == {} && calls == []
    {
      this.sb, this.blocks, this.inodes, logged, calls := sb, blocks, inodes, {}, [];
      this.owner, this.used := owner, used;
    }

    ghost function Now(): (f: Fs)
      reads this
    {
      Fs(blocks, inodes)
    }

    ghost function Whole(): (x: Vol)
      reads this
    {
      Vol(Now(), used, logged)
    }

    ghost predicate Valid()
      reads this
    {
      Consistent(sb, Now(), owner, used) && Told()
    }

    ghost predicate Told()
      reads this
    {
      logged == SetOf(calls)
    }

    /** log_write, without its guard. */
    method LogWrite(s: nat)
      modifies this`logged, this`calls
      ensures logged == old(logged) + {s} && calls == old(calls) + [s]
      ensures old(Told()) ==> Told() && (Repeats(calls) <==> s in old(logged))
    {
      SetOfNext(calls, s);
      calls, logged := calls + [s], logged + {s};
    }

    /** The test in balloc's inner loop, and the mark when it succeeds. */
    method TakeIfFree(b: nat, bi: nat) returns (taken: bool, ghost m: Disk)
      requires BitsAre(sb, blocks, used) && b % BPB == 0 && bi < BPB && b + bi < sb.size
      modifies this`blocks, this`used, this`logged, this`calls
      ensures taken <==> b + bi !in old(used)
      ensures !taken ==> blocks == old(blocks) && used == old(used) && logged == old(logged) && calls == old(calls)
      ensures taken ==> logged == old(logged) + {BBlock(sb, b + bi)} && (old(Told()) ==> Told())
      ensures taken ==> used == old(used) + {b + bi} && blocks == m && OnlyBitmap(sb, old(blocks), m, b + bi) && BitsAre(sb, blocks, used)
    {
      ScanBit(sb, blocks, b, bi);
      var s := BBlock(sb, b);
      var x := ByteAt(blocks[s], bi / 8);
      taken := !Bit(x, bi % 8);
      if taken {
        blocks := blocks[s := Splice(blocks[s], bi / 8, [PutByteBit(x, bi % 8, true)])];
        LogWrite(s);
        used := used + {b + bi};
        Marking(sb, old(blocks), blocks, old(used), used, b + bi, true);
      }
      m := blocks;
    }

    /** balloc (fs.c): the lowest free block, marked in m and then zeroed; a panic means
        that no block is free. */
    method Balloc() returns (r: Option<nat>, ghost m: Disk)
      requires BitsAre(sb, blocks, used)
      modifies this`blocks, this`used, this`logged, this`calls
      ensures r.None? ==> blocks == old(blocks) && used == old(used) && logged == old(logged) && calls == old(calls) && forall b :: 0 <= b < sb.size ==> b in used
      ensures old(Told()) ==> Told()
      ensures r.Some? ==>
                && r.value < sb.size && r.value !in old(used) && (forall b :: 0 <= b < r.value ==> b in old(used))
                && used == old(used) + {r.value} && logged == old(logged) + {BBlock(sb, r.value), r.value}
                && OnlyBitmap(sb, old(blocks), m, r.value) && BitsAre(sb, m, used)
                && blocks == m[r.value := Zero()]
    {
      m := blocks;
      var b := 0;
      while b < sb.size
        invariant b % BPB == 0 && blocks == old(blocks) && used == old(used) && logged == old(logged) && calls == old(calls)
        invariant forall k :: 0 <= k < b && k < sb.size ==> k in used
      {
        r, m := ScanBlock(b);
        if r.Some? {
          return;
        }
        b := b + BPB;
      }
      return None, m;
    }

    /** balloc's inner loop, over one bitmap block. */
    method ScanBlock(b: nat) returns (r: Option<nat>, ghost m: Disk)
      requires BitsAre(sb, blocks, used) && b % BPB == 0 && forall k :: 0 <= k < b && k < sb.size ==> k in used
      modifies this`blocks, this`used, this`logged, this`calls
      ensures r.None? ==> blocks == old(blocks) && used == old(used) && logged == old(logged) && calls == old(calls) && forall k :: 0 <= k < b + BPB && k < sb.size ==> k in used
      ensures old(Told()) ==> Told()
      ensures r.Some? ==>
                && r.value < sb.size && r.value !in old(used) && (forall k :: 0 <= k < r.value ==> k in old(used))
                && used == old(used) + {r.value} && logged == old(logged) + {BBlock(sb, r.value), r.value}
                && OnlyBitmap(sb, old(blocks), m, r.value) && BitsAre(sb, m, used)
                && blocks == m[r.value := Zero()]
    {
      m := blocks;
      var bi := 0;
      while bi < BPB && b + bi < sb.size
        invariant 0 <= bi <= BPB && blocks == old(blocks) && used == old(used) && logged == old(logged) && calls == old(calls)
        invariant forall k :: 0 <= k < b + bi && k < sb.size ==> k in used
      {
        var taken;
        taken, m := TakeIfFree(b, bi);
        if taken {
          blocks := blocks[b + bi := Zero()];
          LogWrite(b + bi);
          return Some(b + bi), m;
        }
        bi := bi + 1;
      }
      return None, m;
    }

    /** bfree (fs.c): the inverse of the mark; freeing a free block panics. */
    method Bfree(b: nat) returns (ok: bool)
      requires BitsAre(sb, blocks, used) && b < sb.size
      modifies this`blocks, this`used, this`logged, this`calls
      ensures ok <==> b in old(used)
      ensures !ok ==> blocks == old(blocks) && used == old(used) && logged == old(logged) && calls == old(calls)
      ensures ok ==> logged == old(logged) + {BBlock(sb, b)}
      ensures old(Told()) ==> Told()
      ensures ok ==> used == old(used) - {b} && OnlyBitmap(sb, old(blocks), blocks, b) && BitsAre(sb, blocks, used)
    {
      BBlockBound(sb, b);
      var s, bi := BBlock(sb, b), b % BPB;
      var x := ByteAt(blocks[s], bi / 8);
      assert Marked(sb, blocks, b) == Bit(x, bi % 8);
      if !Bit(x, bi % 8) {
        return false;
      }
      blocks := blocks[s := Splice(blocks[s], bi / 8, [PutByteBit(x, bi % 8, false)])];
      LogWrite(s);
      used := used - {b};
      Marking(sb, old(blocks), blocks, old(used), used, b, false);
      return true;
    }

    /** The volume is as good as before. */
    twostate predicate Kept()
      reads this
    {
      Valid() && (NoLeak(sb, old(owner), old(used)) ==> NoLeak(sb, owner, used))
    }

    /** And blocks were only added: what bmap promises. */
    twostate predicate Grew()
      reads this
    {
      Kept() && Extends(old(Now()), Now())
    }

    /** if((addr = ip->addrs[k]) == 0) ip->addrs[k] = addr = balloc(): slot s is addrs[k]. */
    method FillAddr(i: nat, k: nat) returns (r: Option<nat>)
      requires Valid() && i < |inodes| && k <= NDIRECT
      modifies this
      ensures Kept()
      ensures Filled(old(Now()), |old(used)|, Now(), |used|, i, if k == NDIRECT then Root else Direct(k), r, sb.size)
      ensures Steps(sb, old(Whole()), Whole(), i, 0, 0)
      ensures old(inodes)[i].addrs[k] != 0 ==> r.Some? && Whole() == old(Whole())
    {
      ghost var s := if k == NDIRECT then Root else Direct(k);
      var addr: nat := inodes[i].addrs[k];
      if addr == 0 {
        ghost var y;
        r, y := Allocate(i, s, 0);
        if r.Some? {
          inodes := inodes[i := Inode(inodes[i].size, inodes[i].addrs[k := r.value])];
          owner := owner[r.value := Owner(i, s)];
          assert Whole() == y;
        }
        return;
      }
      FoundStep(sb, Whole(), i, s);
      return Some(addr);
    }

    /** balloc for the empty slot s: y is the volume once the result has been stored there. */
    method Allocate(i: nat, ghost s: Slot, ghost q: nat) returns (r: Option<nat>, ghost y: Vol)
      requires Valid() && i < |inodes| && ValidSlot(s) && Ptr(Now(), i, s) == 0 && (s.Child? ==> q == Ptr(Now(), i, s.parent) != 0)
      modifies this`blocks, this`used, this`logged, this`calls
      ensures Told() && (r.None? ==> y == Whole() && blocks == old(blocks) && used == old(used) && logged == old(logged) && calls == old(calls))
      ensures r.None? ==> forall b :: 0 <= b < sb.size ==> b in used
      ensures r.Some? ==>
                && 0 < r.value < |blocks| && r.value < UINT && |blocks| == |old(blocks)| && (s.Child? ==> q < |blocks| && blocks[q] == old(blocks)[q])
                && y.f == Stored(Now(), i, s, q, r.value) && y.used == used
                && y.logged == (if s.Child? then logged + {q} else logged)
                && Consistent(sb, y.f, owner[r.value := Owner(i, s)], used)
                && (NoLeak(sb, owner, old(used)) ==> NoLeak(sb, owner[r.value := Owner(i, s)], used))
      ensures Filled(old(Now()), |old(used)|, y.f, |y.used|, i, s, r, sb.size) && Steps(sb, old(Whole()), y, i, 0, 0)
    {
      ghost var x, m := Whole(), blocks;
      r, m := Balloc();
      if r.Some? {
        y := GrowStep(sb, x, m, owner, i, s, r.value);
        OtherBlock(sb, x.f, m, owner, used, i, s, r.value);
      } else {
        y := x;
        FullStep(sb, x, i, s);
      }
    }

    /** if((addr = a[k]) == 0) { a[k] = addr = balloc(); log_write(bp); }, where a is the
        index block q in slot p. */
    method FillChild(i: nat, ghost p: Slot, q: nat, k: nat) returns (r: Option<nat>)
      requires Valid() && i < |inodes| && k < NINDIRECT
      requires ValidSlot(Child(p, k)) && q == Ptr(Now(), i, p) != 0
      modifies this
      ensures Kept()
      ensures Filled(old(Now()), |old(used)|, Now(), |used|, i, Child(p, k), r, sb.size)
      ensures Steps(sb, old(Whole()), Whole(), i, 0, 0)
      ensures Ptr(old(Now()), i, Child(p, k)) != 0 ==> r.Some? && Whole() == old(Whole())
    {
      var addr: nat := GetWord(blocks[q], k);
      if addr == 0 {
        r := NewChild(i, p, q, k);
        if r.None? {
          FullStep(sb, Whole(), i, Child(p, k));
        }
        return;
      }
      FoundStep(sb, Whole(), i, Child(p, k));
      return Some(addr);
    }

    /** a[k] = addr; log_write(bp). */
    method StoreWord(q: nat, k: nat, a: Word)
      requires Told() && q < |blocks| && k < NINDIRECT
      modifies this`blocks, this`logged, this`calls
      ensures blocks == old(blocks)[q := SetWord(old(blocks)[q], k, a)] && logged == old(logged) + {q} && Told()
    {
      blocks := blocks[q := SetWord(blocks[q], k, a)];
      LogWrite(q);
    }

    /** The body of the if. */
    method NewChild(i: nat, ghost p: Slot, q: nat, k: nat) returns (r: Option<nat>)
      requires Valid() && i < |inodes| && k < NINDIRECT
      requires ValidSlot(Child(p, k)) && q == Ptr(Now(), i, p) != 0 && Ptr(Now(), i, Child(p, k)) == 0
      modifies this
      ensures r.None? ==> Whole() == old(Whole()) && owner == old(owner) && Told() && forall b :: 0 <= b < sb.size ==> b in used
      ensures r.None? || (Kept() && Steps(sb, old(Whole()), Whole(), i, 0, 0))
      ensures r.None? || Filled(old(Now()), |old(used)|, Now(), |used|, i, Child(p, k), r, sb.size)
    {
      ghost var y;
      r, y := Allocate(i, Child(p, k), q);
      if r.Some? {
        StoreWord(q, k, r.value);
        assert Whole() == y;
        owner := owner[r.value := Owner(i, Child(p, k))];
      }
    }

    /** One level further down. */
    method FillBelow(i: nat, ghost p: Slot, q: nat, k: nat, ghost x: Vol) returns (r: Option<nat>)
      requires Valid() && i < |inodes| && k < NINDIRECT && ValidSlot(Child(p, k)) && i < |x.f.inodes|
      requires Placed(x.f, |x.used|, Now(), |used|, i, p, Some(q), sb.size) && Steps(sb, x, Whole(), i, 0, 0)
      modifies this
      ensures Kept()
      ensures Placed(x.f, |x.used|, Now(), |used|, i, Child(p, k), r, sb.size) && Steps(sb, x, Whole(), i, 0, 0)
      ensures Ptr(old(Now()), i, Child(p, k)) != 0 ==> r.Some? && Whole() == old(Whole())
    {
      r := FillChild(i, p, q, k);
      BelowStep(sb, x, old(Whole()), Whole(), i, p, q, k, r);
    }

    /** The first two of the three index levels of bmap. */
    method BmapTop(i: nat, k3: nat) returns (r: Option<nat>)
      requires Valid() && i < |inodes| && k3 < NINDIRECT
      modifies this
      ensures Kept() && ValidSlot(Child(Root, k3))
      ensures Placed(old(Now()), |old(used)|, Now(), |used|, i, Child(Root, k3), r, sb.size) && Steps(sb, old(Whole()), Whole(), i, 0, 0)
      ensures Ptr(old(Now()), i, Child(Root, k3)) != 0 ==> r.Some? && Whole() == old(Whole())
    {
      r := FillAddr(i, NDIRECT);
      FilledTop(old(Now()), |old(used)|, Now(), |used|, i, Root, r, sb.size);
      if r.None? {
        NoneBelow(old(Now()), |old(used)|, Now(), |used|, i, Root, k3, sb.size);
        return;
      }
      r := FillBelow(i, Root, r.value, k3, old(Whole()));
    }

    /** The three index levels of bmap. */
    method BmapTree(i: nat, k3: nat, k2: nat, k1: nat) returns (r: Option<nat>)
      requires Valid() && i < |inodes| && k3 < NINDIRECT && k2 < NINDIRECT && k1 < NINDIRECT
      modifies this
      ensures Kept()
      ensures Placed(old(Now()), |old(used)|, Now(), |used|, i, Leaf(k3, k2, k1), r, sb.size) && Steps(sb, old(Whole()), Whole(), i, 0, 0)
      ensures Ptr(old(Now()), i, Leaf(k3, k2, k1)) != 0 ==> r.Some? && Whole() == old(Whole())
    {
      LeafPath(Now(), i, k3, k2, k1);
      r := BmapTop(i, k3);
      if r.None? {
        NoneBelow(old(Now()), |old(used)|, Now(), |used|, i, Child(Root, k3), k2, sb.size);
        NoneBelow(old(Now()), |old(used)|, Now(), |used|, i, Child(Child(Root, k3), k2), k1, sb.size);
        return;
      }
      r := FillBelow(i, Child(Root, k3), r.value, k2, old(Whole()));
      if r.None? {
        NoneBelow(old(Now()), |old(used)|, Now(), |used|, i, Child(Child(Root, k3), k2), k1, sb.size);
        return;
      }
      r := FillBelow(i, Child(Child(Root, k3), k2), r.value, k1, old(Whole()));
    }

    /** bmap (fs.c): the block of file block bn, allocated if missing with its path.  No other
        slot of any file changes, and no byte.  It takes the lowest free blocks, one for each slot
        missing on the path, and panics exactly if bn is out of range or there are fewer.  Success
        keeps every inode's tree branching. */
    method Bmap(i: nat, bn: nat) returns (r: Option<nat>)
      requires Valid() && i < |inodes|
      modifies this
      ensures Grew()
      ensures r.None? <==> bn >= MAXBLOCKS || sb.size < |old(used)| + EmptyOn(old(Now()), i, SlotOf(bn))
      ensures bn < MAXBLOCKS ==> Placed(old(Now()), |old(used)|, Now(), |used|, i, SlotOf(bn), r, sb.size)
      ensures Steps(sb, old(Whole()), Whole(), i, 0, 0)
      ensures bn < MAXBLOCKS && Ptr(old(Now()), i, SlotOf(bn)) != 0 ==> r.Some? && Whole() == old(Whole())
      ensures r.Some? ==> forall j :: 0 <= j < |inodes| && Branching(old(Now()), j) ==> Branching(Now(), j)
      ensures r.None? ==> bn >= MAXBLOCKS || forall b :: 0 <= b < sb.size ==> b in used
    {
      r := Lookup(i, bn);
      WithinSize(used, sb.size);
      if r.Some? {
        forall j | 0 <= j < |inodes| && Branching(old(Now()), j) ensures Branching(Now(), j) {
          KeepsBranching(old(Now()), Now(), i, SlotOf(bn), j);
        }
      } else if bn < MAXBLOCKS {
        FullCount(used, sb.size);
      }
    }

    /** The body of bmap. */
    method Lookup(i: nat, bn: nat) returns (r: Option<nat>)
      requires Valid() && i < |inodes|
      modifies this
      ensures Grew() && (bn >= MAXBLOCKS ==> r.None?)
      ensures bn < MAXBLOCKS ==> Placed(old(Now()), |old(used)|, Now(), |used|, i, SlotOf(bn), r, sb.size)
      ensures Steps(sb, old(Whole()), Whole(), i, 0, 0)
      ensures bn < MAXBLOCKS && Ptr(old(Now()), i, SlotOf(bn)) != 0 ==> r.Some? && Whole() == old(Whole())
    {
      if bn < NDIRECT {
        r := FillAddr(i, bn);
        FilledTop(old(Now()), |old(used)|, Now(), |used|, i, Direct(bn), r, sb.size);
        return;
      }
      var n := bn - NDIRECT;
      if n < NINDIRECT * NINDIRECT * NINDIRECT {
        var d1, k1 := n / NINDIRECT, n % NINDIRECT;
        var d2, k2 := d1 / NINDIRECT, d1 % NINDIRECT;
        var k3 := d2 % NINDIRECT;
        TreeSlot(bn, n, k3, k2, k1);
        r := BmapTree(i, k3, k2, k1);
        return;
      }
      StepsNone(sb, Whole(), i, 0);
      return None;
    }

    /** readi's loop has read dst so far, having begun in state f. */
    ghost predicate Reading(i: nat, off: nat, dst: seq<Byte>, f: Fs)
      reads this
    {
      && Valid() && Extends(f, Now())
      && i < |f.inodes| && off + |dst| <= MAXBLOCKS * BSIZE
      && dst == FileBytes(f, i, off, |dst|)
    }

    /** One turn of readi's loop. */
    method ReadPiece(i: nat, off: nat, len: nat, dst: seq<Byte>, ghost f: Fs) returns (more: seq<Byte>)
      requires Reading(i, off, dst, f) && |dst| < len && off + len <= MAXBLOCKS * BSIZE
      modifies this
      ensures Reading(i, off, more, f) && |dst| <= |more| <= len
      ensures NoLeak(sb, old(owner), old(used)) ==> NoLeak(sb, owner, used)
      ensures more == dst ==> forall b :: 0 <= b < sb.size ==> b in used
      ensures Mapped(old(Now()), i, off + len) ==> |dst| < |more| && Whole() == old(Whole())
    {
      var at, left := off + |dst|, len - |dst|;
      ghost var g := Now();
      var a := Bmap(i, at / BSIZE);
      ExtendsTrans(f, g, Now());
      if a.None? {
        return dst;
      }
      var o := at % BSIZE;
      var m := if left < BSIZE - o then left else BSIZE - o;
      var piece := Piece(Now(), f, i, at, m, blocks[a.value]);
      more := AppendPiece(f, i, off, at, dst, piece);
    }

    /** readi's loop; it stops early only by a panic in bmap. */
    method ReadAll(i: nat, off: nat, len: nat) returns (dst: seq<Byte>)
      requires Valid() && i < |inodes| && off + len <= MAXBLOCKS * BSIZE
      modifies this
      ensures Grew() && |dst| <= len && dst == FileBytes(old(Now()), i, off, |dst|)
      ensures |dst| < len ==> forall b :: 0 <= b < sb.size ==> b in used
      ensures Mapped(old(Now()), i, off + len) ==> |dst| == len && Whole() == old(Whole())
    {
      dst := [];
      ghost var f := Now();
      while |dst| < len
        invariant Mapped(f, i, off + len) ==> Whole() == old(Whole())
        invariant |dst| <= len && Reading(i, off, dst, f) && (NoLeak(sb, old(owner), old(used)) ==> NoLeak(sb, owner, used))
      {
        var more := ReadPiece(i, off, len, dst, f);
        if more == dst {
          return;
        }
        dst := more;
      }
    }

    /** readi's test, in 32-bit arithmetic. */
    static method ReadRefuses(size: Word, off: Word, n: Word) returns (r: bool)
      ensures r <==> off > size || off + n >= UINT
    {
      return off > size || (off as int + n as int) % UINT < off;
    }

    /** readi (fs.c) on a file: exactly the requested slice of the contents, cut at the size. */
    method Readi(i: nat, off: Word, n: Word) returns (r: Io, dst: seq<Byte>)
      requires Valid() && i < |inodes|
      modifies this
      ensures Grew()
      ensures r.Failed? <==> off > old(inodes)[i].size || off + n >= UINT
      ensures r.Done? ==>
                && off <= old(inodes)[i].size
                && dst == Slice(Contents(old(Now()), i), off, n) && r.count == |dst|
      ensures r.Panicked? ==> forall b :: 0 <= b < sb.size ==> b in used
      ensures Mapped(old(Now()), i, old(inodes)[i].size) ==> !r.Panicked? && Whole() == old(Whole())
    {
      dst := [];
      var size: nat := inodes[i].size;
      var no := ReadRefuses(inodes[i].size, off, n);
      if no {
        return Failed, dst;
      }
      var len: nat := n;
      if off as int + len > size {
        len := size - off;
      }
      dst := ReadAll(i, off, len);
      if |dst| < len {
        return Panicked, dst;
      }
      SliceOfContents(old(Now()), i, off, n);
      return Done(len), dst;
    }

    /** One turn of writei's loop: the next piece of src goes to byte `at` of file i. */
    method WritePiece(i: nat, off: nat, at: nat, src: seq<Byte>, tot: nat, ghost f: Fs, ghost bn: nat, ghost n: nat, ghost done: seq<Byte>)
        returns (m: nat, ghost more: seq<Byte>)
      requires Valid() && i < |inodes| && tot < |src| && at == off + tot && off + |src| <= MAXFILE * BSIZE
      requires Patched(f, Now(), i, off, done) && done == src[..tot] && bn == at / BSIZE && n == bn + 1
      modifies this
      ensures Valid() && |inodes| == |old(inodes)| && tot + m <= |src|
      ensures NoLeak(sb, old(owner), old(used)) ==> NoLeak(sb, owner, used)
      ensures m == 0 || (Patched(f, Now(), i, off, more) && more == src[..tot + m])
      ensures m == 0 || m == PieceSize(at, |src| - tot)
      ensures m == 0 || (OneBlock(sb, old(Whole()), Whole(), i, bn, n) && (Repeats(calls) <==> Again(old(Whole()), i, bn)))
      ensures m == 0 ==> Stuck(sb, old(Whole()), i, bn) && forall b :: 0 <= b < sb.size ==> b in used
    {
      var a := FindBlock(i, at, off, done, f, bn);
      if a.None? {
        return 0, done;
      }
      m := PieceSize(at, |src| - tot);
      ghost var y := Whole();
      PutPiece(i, off, at, a.value, src, tot, m, f, bn, n);
      more := src[..tot + m];
      BlockWritten(sb, old(Whole()), y, Whole(), i, bn, n);
    }

    /** bmap of the block at byte `at`; what has been written stays. */
    method FindBlock(i: nat, at: nat, ghost off: nat, ghost data: seq<Byte>, ghost f: Fs, ghost bn: nat) returns (a: Option<nat>)
      requires Valid() && i < |inodes| && at < MAXBLOCKS * BSIZE && Patched(f, Now(), i, off, data) && bn == at / BSIZE
      modifies this
      ensures Valid() && |inodes| == |old(inodes)| && Patched(f, Now(), i, off, data)
      ensures NoLeak(sb, old(owner), old(used)) ==> NoLeak(sb, owner, used)
      ensures bn < MAXBLOCKS && (a.Some? ==> a.value == Ptr(Now(), i, SlotOf(bn)) != 0)
      ensures a.None? <==> Stuck(sb, old(Whole()), i, bn)
      ensures a.None? ==> forall b :: 0 <= b < sb.size ==> b in used
      ensures a.None? || Found(sb, old(Whole()), Whole(), i, bn)
    {
      ghost var x := Whole();
      a := Bmap(i, at / BSIZE);
      PatchedExtends(f, x.f, Now(), i, off, data);
      StepsAt(sb, x, Whole(), i, 0, bn);
    }

    /** memmove(bp->data + off%BSIZE, src, m); log_write(bp). */
    method PutPiece(i: nat, ghost off: nat, at: nat, a: nat, src: seq<Byte>, tot: nat, m: nat, ghost f: Fs, ghost bn: nat, ghost n: nat)
      requires Valid() && i < |inodes| && tot + m <= |src| && Patched(f, Now(), i, off, src[..tot])
      requires at == off + tot && bn == at / BSIZE < MAXBLOCKS && n == bn + 1 && at % BSIZE + m <= BSIZE
      requires a == Ptr(Now(), i, SlotOf(bn)) != 0
      modifies this`blocks, this`logged, this`calls
      ensures Valid() && Patched(f, Now(), i, off, src[..tot + m])
      ensures Steps(sb, old(Whole()), Whole(), i, bn, n) && KeepsPtrs(Now(), old(Now())) && (Repeats(calls) <==> a in old(logged))
    {
      var b := Splice(blocks[a], at % BSIZE, src[tot..tot + m]);
      assert src[..tot + m] == src[..tot] + src[tot..tot + m];
      ghost var y := PieceStored(sb, f, Whole(), owner, i, off, src[..tot], src[tot..tot + m], at, bn, n, b);
      blocks := blocks[a := b];
      LogWrite(a);
      assert Whole() == y;
    }

    /** writei's loop; it stops early exactly if there are fewer free blocks than it needs. */
    method WriteAll(i: nat, off: nat, src: seq<Byte>) returns (ok: bool)
      requires Valid() && i < |inodes| && off + |src| <= MAXFILE * BSIZE && EndBlock(off, |src|) <= MAXFILE
      modifies this
      ensures Valid() && |inodes| == |old(inodes)|
      ensures NoLeak(sb, old(owner), old(used)) ==> NoLeak(sb, owner, used)
      ensures ok ==> Patched(old(Now()), Now(), i, off, src)
      ensures ok ==> Progress(sb, old(Whole()), Whole(), i, off / BSIZE, EndBlock(off, |src|))
      ensures ok && |src| > 0 && old(logged) == {} ==> (Repeats(calls) <==> LastMissing(old(Now()), i, EndBlock(off, |src|)))
      ensures !ok ==> sb.size < |old(used)| + WriteNeeds(old(Now()), i, off / BSIZE, EndBlock(off, |src|)) && forall b :: 0 <= b < sb.size ==> b in used
    {
      ghost var hist;
      ok, hist := WriteBlocks(i, off, src, off / BSIZE, EndBlock(off, |src|));
      ghost var p := hist[|hist| - 1];
      ChainProgress(sb, hist, i, |hist| - 1);
      if ok && EndBlock(off, |src|) > off / BSIZE && old(logged) == {} {
        LastAgain(sb, hist, owner, i, p);
      }
      if !ok {
        NeedsMore(hist[0].vol.f, p.vol.f, i, hist[0].next, p.next, EndBlock(off, |src|));
      }
    }

    /** writei's loop has written `done`, the first tot bytes of src, into the blocks [b, e) of [b, last),
        having begun in state f. */
    ghost predicate Writing(i: nat, off: nat, src: seq<Byte>, tot: nat, b: nat, e: nat, last: nat, f: Fs, tight: bool, hist: seq<Point>, done: seq<Byte>)
      reads this
    {
      && Valid() && i < |inodes| && |inodes| == |f.inodes| && Standing(off + tot, tot, |src|, b, e, last)
      && Patched(f, Now(), i, off, done) && done == src[..tot] && (tight ==> NoLeak(sb, owner, used))
      && Chain(sb, hist, i) && hist[|hist| - 1] == Point(Whole(), e, Repeats(calls))
    }

    /** One turn. */
    method WriteTurn(i: nat, off: nat, at: nat, src: seq<Byte>, tot: nat, ghost b: nat, ghost e: nat, ghost last: nat, ghost f: Fs, ghost tight: bool, ghost hist: seq<Point>, ghost done: seq<Byte>)
        returns (m: nat, ghost now: seq<Point>, ghost more: seq<Byte>)
      requires Writing(i, off, src, tot, b, e, last, f, tight, hist, done) && at == off + tot && tot < |src| && off + |src| <= MAXFILE * BSIZE
      requires b == off / BSIZE && last == EndBlock(off, |src|) <= MAXFILE
      modifies this
      ensures Valid() && |inodes| == |old(inodes)| && (tight ==> NoLeak(sb, owner, used))
      ensures m > 0 ==> Writing(i, off, src, tot + m, b, e + 1, last, f, tight, now, more) && now == hist + [Point(Whole(), e + 1, Repeats(calls))]
      ensures m == 0 ==> e < last && Stuck(sb, hist[|hist| - 1].vol, i, e) && forall c :: 0 <= c < sb.size ==> c in used
    {
      PieceNext(off, at, tot, |src|, b, e, last, PieceSize(at, |src| - tot));
      m, more := WritePiece(i, off, at, src, tot, f, e, e + 1, done);
      now := hist + [Point(Whole(), e + 1, Repeats(calls))];
      ChainNext(sb, hist, i, Point(Whole(), e + 1, Repeats(calls)));
    }

    /** The turns of the loop, with the volume after each. */
    method WriteBlocks(i: nat, off: nat, src: seq<Byte>, ghost b: nat, ghost last: nat) returns (ok: bool, ghost hist: seq<Point>)
      requires Valid() && i < |inodes| && off + |src| <= MAXFILE * BSIZE
      requires b == off / BSIZE && last == EndBlock(off, |src|) <= MAXFILE
      modifies this
      ensures Valid() && |inodes| == |old(inodes)|
      ensures NoLeak(sb, old(owner), old(used)) ==> NoLeak(sb, owner, used)
      ensures Chain(sb, hist, i) && hist[0] == Point(old(Whole()), b, Repeats(old(calls)))
      ensures ok ==> Patched(old(Now()), Now(), i, off, src) && hist[|hist| - 1] == Point(Whole(), last, Repeats(calls))
      ensures !ok ==> hist[|hist| - 1].next < last && Stuck(sb, hist[|hist| - 1].vol, i, hist[|hist| - 1].next) && forall b :: 0 <= b < sb.size ==> b in used
    {
      var at, tot := off, 0;
      ghost var f, e, tight, done := Now(), b, NoLeak(sb, owner, used), src[..0];
      hist := [Point(Whole(), b, Repeats(calls))];
      while tot < |src|
        invariant at == off + tot && 0 <= tot <= |src| && Writing(i, off, src, tot, b, e, last, f, tight, hist, done)
        invariant hist[0] == Point(old(Whole()), b, Repeats(old(calls)))
      {
        var m;
        ghost var now;
        m, now, done := WriteTurn(i, off, at, src, tot, b, e, last, f, tight, hist, done);
        if m == 0 {
          return false, hist;
        }
        hist, e := now, e + 1;
        tot, at := tot + m, at + m;
      }
      assert src[..tot] == src && e == last;
      return true, hist;
    }

    /** writei's tests, in 32-bit arithmetic. */
    static method Refuses(size: Word, off: Word, n: nat) returns (r: bool)
      requires n < UINT
      ensures r <==> off > size || off + n > MAXFILE * BSIZE
    {
      if off > size || (off as int + n) % UINT < off {
        return true;
      }
      return (off as int + n) % UINT > MAXFILE * BSIZE;
    }

    /** writei (fs.c) on a file: it replaces exactly [off, off + n) of the bytes, extends the
        size if needed, and changes no byte of any other file.  It panics exactly if fewer blocks
        are free than the slots it lacks, and logs what Progress says. */
    method Writei(i: nat, off: Word, src: seq<Byte>) returns (r: Io)
      requires Valid() && i < |inodes| && |src| < UINT
      modifies this
      ensures Valid() && |inodes| == |old(inodes)|
      ensures NoLeak(sb, old(owner), old(used)) ==> NoLeak(sb, owner, used)
      ensures r.Failed? <==> off > old(inodes)[i].size || off + |src| > MAXFILE * BSIZE
      ensures r.Failed? ==> Whole() == old(Whole())
      ensures r.Done? ==>
                && r.count == |src| && off <= old(inodes)[i].size && |blocks| == |old(blocks)|
                && Contents(Now(), i) == Written(Contents(old(Now()), i), off, src)
                && forall j :: 0 <= j < |inodes| && j != i ==> Contents(Now(), j) == Contents(old(Now()), j)
      ensures !r.Failed? ==> EndBlock(off, |src|) <= MAXFILE
      ensures r.Panicked? <==> !r.Failed? && sb.size < |old(used)| + WriteNeeds(old(Now()), i, off / BSIZE, EndBlock(off, |src|))
      ensures r.Panicked? ==> forall b :: 0 <= b < sb.size ==> b in used
      ensures r.Done? ==> Progress(sb, old(Whole()), Whole(), i, off / BSIZE, EndBlock(off, |src|))
      ensures r.Done? && |src| > 0 && old(logged) == {} ==> (Repeats(calls) <==> LastMissing(old(Now()), i, EndBlock(off, |src|)))
      ensures r.Done? ==> inodes[i].size == GrownSize(old(inodes)[i].size, off, |src|)
    {
      var n := |src|;
      var no := Refuses(inodes[i].size, off, n);
      if no {
        return Failed;
      }
      EndInFile(off, n, MAXFILE);
      var ok := WriteAll(i, off, src);
      if !ok {
        return Panicked;
      }
      GrowSize(i, off, src, old(Whole()));
      return Done(n);
    }

    /** if(n > 0 && off > ip->size) ip->size = off, with off behind the last byte written. */
    method GrowSize(i: nat, off: nat, src: seq<Byte>, ghost x: Vol)
      requires Valid() && i < |inodes| && off <= inodes[i].size && off + |src| <= MAXFILE * BSIZE && EndBlock(off, |src|) <= MAXFILE
      requires Patched(x.f, Now(), i, off, src) && Progress(sb, x, Whole(), i, off / BSIZE, EndBlock(off, |src|))
      modifies this`inodes
      ensures Valid() && |inodes| == |old(inodes)| && used == old(used) && |used| <= sb.size
      ensures Contents(Now(), i) == Written(Contents(x.f, i), off, src)
      ensures forall j :: 0 <= j < |inodes| && j != i ==> Contents(Now(), j) == Contents(x.f, j)
      ensures Progress(sb, x, Whole(), i, off / BSIZE, EndBlock(off, |src|))
      ensures inodes[i].size == GrownSize(x.f.inodes[i].size, off, |src|)
    {
      ghost var z := SizeGrown(sb, x, Whole(), owner, i, off, src);
      if |src| > 0 && off + |src| > inodes[i].size {
        inodes := inodes[i := Inode(off + |src|, inodes[i].addrs)];
      }
      assert Whole() == z;
    }
  }
}
