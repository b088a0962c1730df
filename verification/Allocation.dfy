/** What giving blocks to a file takes from the bitmap, and which sectors it sends to the log. */
module Allocation {
  import opened Wrappers
  import opened Blocks
  import opened Bitmap
  import opened FileIndex
  import opened Volumes
  import opened Sequences

  // ---- the lowest free blocks -------------------------------------------------------------------

  /** The lowest block from b on that is not in use, or size. */
  function Lowest(used: set<nat>, b: nat, size: nat): (r: nat)
    requires b <= size
    ensures b <= r <= size && (r < size ==> r !in used) && forall k :: b <= k < r ==> k in used
    decreases size - b
  {
    if b == size || b !in used then b else Lowest(used, b + 1, size)
  }

  /** The blocks in use after k calls of balloc. */
  function Taken(used: set<nat>, size: nat, k: nat): (r: set<nat>)
    ensures used <= r
    decreases k
  {
    if k == 0 then used else Taken(used + {Lowest(used, 0, size)}, size, k - 1)
  }

  /** From x to y the lowest free blocks were taken. */
  ghost predicate TookLowest(x: set<nat>, y: set<nat>)
  {
    x <= y && forall a, b :: a in y && a !in x && 0 <= b < a ==> b in y
  }

  /** Taking the lowest k free blocks. */
  lemma {:induction false} TakenIs(x: set<nat>, y: set<nat>, size: nat, k: nat)
    requires TookLowest(x, y) && |y| == |x| + k && forall b :: b in y ==> b < size
    ensures y == Taken(x, size, k)
    decreases k
  {
    if k == 0 {
      SameCount(x, y);
    } else {
      var c := Extra(x, y);
      var a := Lowest(x, 0, size);
      assert a in y;
      TakenIs(x + {a}, y, size, k - 1);
    }
  }

  lemma SameCount(x: set<nat>, y: set<nat>)
    requires x <= y && |x| == |y|
    ensures x == y
  {
    assert y == x + (y - x);
  }

  lemma Extra(x: set<nat>, y: set<nat>) returns (c: nat)
    requires x <= y && |x| < |y|
    ensures c in y && c !in x
  {
    assert y == x + (y - x);
    assert |y - x| > 0;
    c :| c in y - x;
  }

  lemma {:induction false} WithinSize(used: set<nat>, size: nat)
    requires forall b :: b in used ==> b < size
    ensures |used| <= size
  {
    RangeCount(0, size);
    SubsetCount(used, Range(0, size));
  }

  lemma {:induction false} FullCount(used: set<nat>, size: nat)
    requires size <= |used| && forall b :: b in used ==> b < size
    ensures forall b :: 0 <= b < size ==> b in used
  {
    RangeCount(0, size);
    WithinSize(used, size);
    SameCount(used, Range(0, size));
  }

  lemma {:induction false} RangeCount(lo: nat, hi: nat)
    requires lo <= hi
    ensures |Range(lo, hi)| == hi - lo
    decreases hi
  {
    if lo < hi { RangeCount(lo, hi - 1); }
  }

  // ---- one step ---------------------------------------------------------------------------------

  /** A volume, the blocks in use on it, and the sectors the transaction has logged. */
  datatype Vol = Vol(f: Fs, used: set<nat>, logged: set<nat>)

  /** No slot in use moved. */
  ghost predicate KeepsPtrs(f: Fs, g: Fs)
  {
    && |g.inodes| == |f.inodes| && |g.blocks| == |f.blocks|
    && forall j, t :: 0 <= j < |f.inodes| && ValidSlot(t) && Ptr(f, j, t) != 0 ==> Ptr(g, j, t) == Ptr(f, j, t)
  }

  /** Slot t of inode i was filled from f to g. */
  ghost predicate Newly(f: Fs, g: Fs, i: nat, t: Slot)
  {
    i < |f.inodes| && i < |g.inodes| && ValidSlot(t) && Ptr(f, i, t) == 0 && Ptr(g, i, t) != 0
  }

  /** What filling slot t sends to the log: the block, its bitmap sector and the index block that
      now points to it. */
  ghost predicate SectorFor(sb: Super, g: Fs, i: nat, t: Slot, c: nat)
    requires i < |g.inodes| && ValidSlot(t)
  {
    c == Ptr(g, i, t) || c == BBlock(sb, Ptr(g, i, t)) || (t.Child? && c == Ptr(g, i, t.parent))
  }

  ghost predicate Logs(sb: Super, f: Fs, g: Fs, i: nat, c: nat)
  {
    exists t :: Newly(f, g, i, t) && SectorFor(sb, g, i, t, c)
  }

  ghost predicate NewBlock(f: Fs, g: Fs, i: nat, b: nat)
  {
    exists t :: Newly(f, g, i, t) && Ptr(g, i, t) == b
  }

  /** c is one of the data blocks [b, e) of file i. */
  ghost predicate IsData(g: Fs, i: nat, b: nat, e: nat, c: nat)
  {
    exists bn: nat :: b <= bn < e && DataAt(g, i, bn, c)
  }

  ghost predicate DataAt(g: Fs, i: nat, bn: nat, c: nat)
  {
    i < |g.inodes| && bn < MAXBLOCKS && c == Ptr(g, i, SlotOf(bn)) != 0
  }

  ghost predicate HasData(g: Fs, i: nat, b: nat, e: nat)
  {
    i < |g.inodes| && forall bn: nat :: b <= bn < e ==> HasBlock(g, i, bn)
  }

  ghost predicate HasBlock(g: Fs, i: nat, bn: nat)
  {
    i < |g.inodes| && bn < MAXBLOCKS && Ptr(g, i, SlotOf(bn)) != 0
  }

  /** They are the blocks in the slots that inode i got. */
  ghost predicate TookForSlots(x: Vol, y: Vol, i: nat)
  {
    && (forall c :: c in y.used <==> c in x.used || NewBlock(x.f, y.f, i, c))
    && (forall c :: NewBlock(x.f, y.f, i, c) ==> c !in x.used)
  }

  /** The sectors for those slots and the data blocks [b, e) of file i were logged. */
  ghost predicate Logged(sb: Super, x: Vol, y: Vol, i: nat, b: nat, e: nat)
  {
    forall c :: c in y.logged <==> c in x.logged || Logs(sb, x.f, y.f, i, c) || IsData(y.f, i, b, e, c)
  }

  /** No other sector changed. */
  ghost predicate OnlyLogged(x: Vol, y: Vol)
  {
    && |y.f.blocks| == |x.f.blocks| && x.logged <= y.logged
    && forall c :: 0 <= c < |x.f.blocks| && y.f.blocks[c] != x.f.blocks[c] ==> c in y.logged
  }

  /** Only inode i changed. */
  ghost predicate OnlyInode(f: Fs, g: Fs, i: nat)
  {
    |g.inodes| == |f.inodes| && forall j :: 0 <= j < |f.inodes| && j != i ==> g.inodes[j] == f.inodes[j]
  }

  /** All that a part of writei does to the bitmap and the log. */
  ghost predicate Steps(sb: Super, x: Vol, y: Vol, i: nat, b: nat, e: nat)
  {
    && KeepsPtrs(x.f, y.f) && i < |x.f.inodes| && b <= e && HasData(y.f, i, b, e) && OnlyInode(x.f, y.f, i)
    && TookLowest(x.used, y.used) && TookForSlots(x, y, i) && Logged(sb, x, y, i, b, e) && OnlyLogged(x, y)
  }

  lemma {:induction false} NewlyTrans(x: Fs, y: Fs, z: Fs, i: nat, t: Slot)
    requires KeepsPtrs(x, y) && KeepsPtrs(y, z) && i < |x.inodes| && ValidSlot(t)
    ensures Newly(x, z, i, t) <==> Newly(x, y, i, t) || Newly(y, z, i, t)
    ensures Newly(x, y, i, t) ==> Ptr(z, i, t) == Ptr(y, i, t) && (t.Child? ==> Ptr(z, i, t.parent) == Ptr(y, i, t.parent))
  {
  }

  lemma {:induction false} LogsTrans(sb: Super, x: Fs, y: Fs, z: Fs, i: nat, c: nat)
    requires KeepsPtrs(x, y) && KeepsPtrs(y, z) && i < |x.inodes|
    ensures Logs(sb, x, z, i, c) <==> Logs(sb, x, y, i, c) || Logs(sb, y, z, i, c)
  {
    forall t | ValidSlot(t)
      ensures Newly(x, z, i, t) <==> Newly(x, y, i, t) || Newly(y, z, i, t)
      ensures Newly(x, y, i, t) ==> (SectorFor(sb, z, i, t, c) <==> SectorFor(sb, y, i, t, c))
    {
      NewlyTrans(x, y, z, i, t);
    }
  }

  lemma {:induction false} BlockTrans(x: Fs, y: Fs, z: Fs, i: nat, c: nat)
    requires KeepsPtrs(x, y) && KeepsPtrs(y, z) && i < |x.inodes|
    ensures NewBlock(x, z, i, c) <==> NewBlock(x, y, i, c) || NewBlock(y, z, i, c)
  {
    forall t | ValidSlot(t)
      ensures Newly(x, z, i, t) <==> Newly(x, y, i, t) || Newly(y, z, i, t)
      ensures Newly(x, y, i, t) ==> Ptr(z, i, t) == Ptr(y, i, t)
    {
      NewlyTrans(x, y, z, i, t);
    }
  }

  lemma {:induction false} DataTrans(y: Fs, z: Fs, i: nat, b: nat, k: nat, e: nat, c: nat)
    requires KeepsPtrs(y, z) && b <= k <= e && HasData(y, i, b, k)
    ensures IsData(z, i, b, e, c) <==> IsData(y, i, b, k, c) || IsData(z, i, k, e, c)
  {
    forall bn: nat | b <= bn < k ensures DataAt(z, i, bn, c) <==> DataAt(y, i, bn, c) { assert HasBlock(y, i, bn); }
  }

  lemma {:induction false} SlotsTrans(x: Vol, y: Vol, z: Vol, i: nat)
    requires KeepsPtrs(x.f, y.f) && KeepsPtrs(y.f, z.f) && i < |x.f.inodes| && TookForSlots(x, y, i) && TookForSlots(y, z, i)
    ensures TookForSlots(x, z, i)
  {
    forall c ensures NewBlock(x.f, z.f, i, c) <==> NewBlock(x.f, y.f, i, c) || NewBlock(y.f, z.f, i, c) { BlockTrans(x.f, y.f, z.f, i, c); }
  }

  lemma {:induction false} LoggedTrans(sb: Super, x: Vol, y: Vol, z: Vol, i: nat, b: nat, k: nat, e: nat)
    requires KeepsPtrs(x.f, y.f) && KeepsPtrs(y.f, z.f) && i < |x.f.inodes| && b <= k <= e && HasData(y.f, i, b, k)
    requires Logged(sb, x, y, i, b, k) && Logged(sb, y, z, i, k, e)
    ensures Logged(sb, x, z, i, b, e)
  {
    forall c ensures c in z.logged <==> c in x.logged || Logs(sb, x.f, z.f, i, c) || IsData(z.f, i, b, e, c) {
      LogsTrans(sb, x.f, y.f, z.f, i, c);
      DataTrans(y.f, z.f, i, b, k, e, c);
    }
  }

  lemma {:induction false} HasDataTrans(y: Fs, z: Fs, i: nat, b: nat, k: nat, e: nat)
    requires KeepsPtrs(y, z) && b <= k <= e && HasData(y, i, b, k) && HasData(z, i, k, e)
    ensures HasData(z, i, b, e)
  {
    forall bn: nat | b <= bn < e ensures HasBlock(z, i, bn) {
      if bn < k { assert HasBlock(y, i, bn); }
    }
  }

  lemma {:induction false} StepsTrans(sb: Super, x: Vol, y: Vol, z: Vol, i: nat, b: nat, k: nat, e: nat)
    requires Steps(sb, x, y, i, b, k) && Steps(sb, y, z, i, k, e)
    ensures Steps(sb, x, z, i, b, e)
  {
    SlotsTrans(x, y, z, i);
    LoggedTrans(sb, x, y, z, i, b, k, e);
    HasDataTrans(y.f, z.f, i, b, k, e);
  }

  /** Nothing happened. */
  lemma {:induction false} StepsNone(sb: Super, x: Vol, i: nat, b: nat)
    requires i < |x.f.inodes|
    ensures Steps(sb, x, x, i, b, b)
  {
  }

  /** A data block that has a slot was written. */
  lemma {:induction false} StepsData(sb: Super, x: Vol, y: Vol, i: nat, bn: nat)
    requires i < |x.f.inodes| && bn < MAXBLOCKS && Ptr(x.f, i, SlotOf(bn)) != 0
    requires KeepsPtrs(x.f, y.f) && KeepsPtrs(y.f, x.f) && y.f.inodes == x.f.inodes && y.used == x.used && y.logged == x.logged + {Ptr(x.f, i, SlotOf(bn)) as nat}
    requires forall c :: 0 <= c < |x.f.blocks| && c != Ptr(x.f, i, SlotOf(bn)) ==> y.f.blocks[c] == x.f.blocks[c]
    ensures Steps(sb, x, y, i, bn, bn + 1)
  {
    assert DataAt(y.f, i, bn, Ptr(x.f, i, SlotOf(bn)));
    var e := bn + 1;
    forall c ensures IsData(y.f, i, bn, e, c) <==> c == Ptr(x.f, i, SlotOf(bn)) { }
  }

  /** A slot was filled with the lowest free block. */
  lemma {:induction false} StepsFill(sb: Super, x: Vol, y: Vol, i: nat, s: Slot, a: nat, k: nat)
    requires KeepsPtrs(x.f, y.f) && i < |x.f.inodes| && ValidSlot(s) && Ptr(x.f, i, s) == 0 && Ptr(y.f, i, s) == a != 0
    requires forall t :: ValidSlot(t) && t != s ==> Ptr(y.f, i, t) == Ptr(x.f, i, t)
    requires a < sb.size && a !in x.used && (forall b :: 0 <= b < a ==> b in x.used) && y.used == x.used + {a} && OnlyInode(x.f, y.f, i)
    requires y.logged == x.logged + {a, BBlock(sb, a)} + (if s.Child? then {Ptr(x.f, i, s.parent) as nat} else {})
    requires forall c :: 0 <= c < |x.f.blocks| && c !in y.logged ==> y.f.blocks[c] == x.f.blocks[c]
    ensures Steps(sb, x, y, i, k, k)
  {
    assert forall t :: Newly(x.f, y.f, i, t) <==> t == s;
    forall c ensures Logs(sb, x.f, y.f, i, c) <==> c == a || c == BBlock(sb, a) || (s.Child? && c == Ptr(x.f, i, s.parent)) {
      assert Newly(x.f, y.f, i, s);
    }
    forall c ensures NewBlock(x.f, y.f, i, c) <==> c == a { assert Newly(x.f, y.f, i, s); }
  }

  // ---- how many blocks a write takes --------------------------------------------------------------

  /** The index slots above the blocks that writei reaches beyond the direct ones. */
  function First(): (s: Slot)
    ensures ValidSlot(s) && Depth(s) == 1
  {
    TreeSlots(0, 0, 0);
    Child(Root, 0)
  }

  function Second(): (s: Slot)
    ensures ValidSlot(s) && Depth(s) == 2 && s == Child(First(), 0)
  {
    TreeSlots(0, 0, 0);
    Child(First(), 0)
  }

  /** The slots on the path to a block that writei reaches. */
  lemma {:induction false} PathTo(bn: nat, t: Slot)
    requires bn < MAXFILE
    ensures bn < NDIRECT ==> SlotOf(bn) == Direct(bn) && (OnPath(t, SlotOf(bn)) <==> t == Direct(bn))
    ensures bn >= NDIRECT ==> SlotOf(bn) == Child(Second(), bn - NDIRECT)
                              && (OnPath(t, SlotOf(bn)) <==> t == SlotOf(bn) || t == Second() || t == First() || t == Root)
  {
    if bn >= NDIRECT {
      TreeSlot(bn, bn - NDIRECT, 0, 0, bn - NDIRECT);
      var s := Child(Second(), bn - NDIRECT);
      assert OnPath(t, s) == (t == s || OnPath(t, Second()));
      assert OnPath(t, Second()) == (t == Second() || OnPath(t, First()));
      assert OnPath(t, First()) == (t == First() || OnPath(t, Root));
    }
  }

  function Missing(f: Fs, i: nat, s: Slot): (n: nat)
    requires i < |f.inodes| && ValidSlot(s)
  {
    if Ptr(f, i, s) == 0 then 1 else 0
  }

  lemma {:induction false} EmptyAt(f: Fs, i: nat, bn: nat)
    requires i < |f.inodes| && bn < MAXFILE
    ensures EmptyOn(f, i, SlotOf(bn)) == Missing(f, i, SlotOf(bn)) + if bn < NDIRECT then 0 else IndexNeeds(f, i)
  {
    PathTo(bn, Root);
    if bn >= NDIRECT {
      assert EmptyOn(f, i, SlotOf(bn)) == Missing(f, i, SlotOf(bn)) + EmptyOn(f, i, Second());
      assert EmptyOn(f, i, Second()) == Missing(f, i, Second()) + EmptyOn(f, i, First());
      assert EmptyOn(f, i, First()) == Missing(f, i, First()) + EmptyOn(f, i, Root);
    }
  }

  /** The index blocks missing above them. */
  function IndexNeeds(f: Fs, i: nat): (n: nat)
    requires i < |f.inodes|
  {
    Missing(f, i, Root) + Missing(f, i, First()) + Missing(f, i, Second())
  }

  /** The data blocks missing among [b, e). */
  function DataNeeds(f: Fs, i: nat, b: nat, e: nat): (n: nat)
    requires i < |f.inodes| && e <= MAXFILE
  {
    if e <= b then 0 else DataNeeds(f, i, b, e - 1) + Missing(f, i, SlotOf(e - 1))
  }

  /** The blocks balloc is asked for when the data blocks [b, e) are written. */
  function WriteNeeds(f: Fs, i: nat, b: nat, e: nat): (n: nat)
    requires i < |f.inodes| && e <= MAXFILE
  {
    DataNeeds(f, i, b, e) + if b < e && NDIRECT < e then IndexNeeds(f, i) else 0
  }

  /** t is on the path to one of the blocks [b, e). */
  ghost predicate Within(t: Slot, b: nat, e: nat)
  {
    exists bn: nat :: b <= bn < e && Leads(t, bn)
  }

  ghost predicate Leads(t: Slot, bn: nat)
  {
    bn < MAXBLOCKS && OnPath(t, SlotOf(bn))
  }

  /** From f to g exactly the slots on the paths to the blocks [b, e) were filled. */
  ghost predicate FilledFor(f: Fs, g: Fs, i: nat, b: nat, e: nat)
  {
    && i < |f.inodes| && i < |g.inodes|
    && forall t :: ValidSlot(t) ==> (Ptr(g, i, t) != 0 <==> Ptr(f, i, t) != 0 || Within(t, b, e))
  }

  lemma {:induction false} WithinNext(t: Slot, b: nat, e: nat)
    requires b <= e
    ensures Within(t, b, e + 1) <==> Within(t, b, e) || Leads(t, e)
  {
    if Leads(t, e) { assert b <= e < e + 1; }
  }

  /** After one block more. */
  lemma {:induction false} FilledNextFor(f: Fs, g: Fs, h: Fs, i: nat, b: nat, e: nat)
    requires FilledFor(f, g, i, b, e) && b <= e < MAXBLOCKS && KeepsPtrs(g, h) && OnlyPath(g, h, i, SlotOf(e)) && Ptr(h, i, SlotOf(e)) != 0
    ensures FilledFor(f, h, i, b, e + 1)
  {
    forall t | ValidSlot(t) ensures Ptr(h, i, t) != 0 <==> Ptr(f, i, t) != 0 || Within(t, b, e + 1) {
      WithinNext(t, b, e);
      if Leads(t, e) { InUseAbove(h, i, t, SlotOf(e)); }
    }
  }

  /** It takes the blocks missing on its path then, which is what the closed form grows by. */
  lemma {:induction false} NeedsNext(f: Fs, g: Fs, i: nat, b: nat, e: nat)
    requires FilledFor(f, g, i, b, e) && b <= e < MAXFILE
    ensures WriteNeeds(f, i, b, e + 1) == WriteNeeds(f, i, b, e) + EmptyOn(g, i, SlotOf(e))
  {
    EmptyAt(g, i, e);
    LeafWithin(b, e, e);
    assert Missing(g, i, SlotOf(e)) == Missing(f, i, SlotOf(e));
    if e >= NDIRECT {
      IndexWithin(Root, b, e);
      IndexWithin(First(), b, e);
      IndexWithin(Second(), b, e);
    }
  }

  lemma {:induction false} IndexWithin(t: Slot, b: nat, e: nat)
    requires e <= MAXFILE && t in {Root, First(), Second()}
    ensures Within(t, b, e) <==> b < e && NDIRECT < e
  {
    forall bn: nat | bn < e ensures Leads(t, bn) <==> bn >= NDIRECT { PathTo(bn, t); }
    if b < e && NDIRECT < e { assert Leads(t, e - 1); }
  }

  /** A data slot lies on no path but its own. */
  lemma {:induction false} LeafWithin(b: nat, e: nat, k: nat)
    requires e <= MAXFILE && k < MAXFILE
    ensures Within(SlotOf(k), b, e) <==> b <= k < e
  {
    forall bn: nat | bn < e ensures Leads(SlotOf(k), bn) <==> bn == k {
      PathTo(bn, SlotOf(k));
      if SlotOf(bn) == SlotOf(k) { SlotOfInjective(bn, k); }
    }
    if b <= k < e { assert Leads(SlotOf(k), k); }
  }

  // ---- how many sectors it logs -------------------------------------------------------------------

  /** The blocks [b, e) beyond the direct ones. */
  function Beyond(b: nat): (r: nat)
  {
    if b < NDIRECT then NDIRECT else b
  }

  /** The index blocks logged: those that point to something new. */
  function IndexLogs(f: Fs, i: nat, b: nat, e: nat): (n: nat)
    requires i < |f.inodes| && e <= MAXFILE
  {
    if b < e && NDIRECT < e then
      Missing(f, i, First()) + Missing(f, i, Second()) + if DataNeeds(f, i, Beyond(b), e) > 0 then 1 else 0
    else 0
  }

  /** The bitmap sectors of a set of blocks. */
  ghost function BitmapOf(sb: Super, s: set<nat>): (r: set<nat>)
  {
    set b | b in s :: BBlock(sb, b)
  }

  /** The sectors a write of the data blocks [b, e) logs: those blocks, the index blocks that point
      to something new, and the bitmap sectors of the lowest free blocks it takes. */
  ghost function LogNeeds(sb: Super, f: Fs, used: set<nat>, i: nat, b: nat, e: nat): (n: nat)
    requires i < |f.inodes| && b <= e <= MAXFILE
  {
    e - b + IndexLogs(f, i, b, e) + |BitmapOf(sb, Taken(used, sb.size, WriteNeeds(f, i, b, e)) - used)|
  }

  /** One of the blocks [b, e) was missing. */
  lemma {:induction false} SomeMissing(f: Fs, i: nat, b: nat, e: nat)
    requires i < |f.inodes| && e <= MAXFILE
    ensures DataNeeds(f, i, b, e) > 0 <==> exists bn: nat :: b <= bn < e && LacksBlock(f, i, bn)
    decreases e
  {
    if b < e {
      SomeMissing(f, i, b, e - 1);
      assert LacksBlock(f, i, e - 1) <==> Missing(f, i, SlotOf(e - 1)) == 1;
    }
  }

  predicate LacksBlock(f: Fs, i: nat, bn: nat)
  {
    i < |f.inodes| && bn < MAXBLOCKS && Ptr(f, i, SlotOf(bn)) == 0
  }

  ghost function DataSet(g: Fs, i: nat, b: nat, e: nat): (s: set<nat>)
    requires b <= e && HasData(g, i, b, e)
    decreases e
  {
    if e == b then {} else
    assert HasBlock(g, i, e - 1);
    DataSet(g, i, b, e - 1) + {Ptr(g, i, SlotOf(e - 1)) as nat}
  }

  lemma {:induction false} DataSetIs(g: Fs, i: nat, b: nat, e: nat, c: nat)
    requires b <= e && HasData(g, i, b, e)
    ensures c in DataSet(g, i, b, e) <==> IsData(g, i, b, e, c)
    decreases e
  {
    if b < e {
      assert HasBlock(g, i, e - 1);
      DataSetIs(g, i, b, e - 1, c);
      if DataAt(g, i, e - 1, c) { assert b <= e - 1 < e; }
    }
  }

  lemma {:induction false} DataCount(g: Fs, owner: map<nat, Owner>, i: nat, b: nat, e: nat)
    requires b <= e && HasData(g, i, b, e) && Tree(g, owner)
    ensures |DataSet(g, i, b, e)| == e - b
    decreases e
  {
    if b < e {
      assert HasBlock(g, i, e - 1);
      DataCount(g, owner, i, b, e - 1);
      LastData(g, owner, i, b, e - 1);
      var s, a := DataSet(g, i, b, e - 1), Ptr(g, i, SlotOf(e - 1)) as nat;
      assert DataSet(g, i, b, e) == s + {a};
      OneMore(s, a);
    }
  }

  lemma OneMore(s: set<nat>, c: nat)
    ensures c !in s ==> |s + {c}| == |s| + 1
  {
  }

  lemma {:induction false} LastData(g: Fs, owner: map<nat, Owner>, i: nat, b: nat, k: nat)
    requires b <= k && HasData(g, i, b, k) && HasBlock(g, i, k) && Tree(g, owner)
    ensures Ptr(g, i, SlotOf(k)) !in DataSet(g, i, b, k)
  {
    NotEarlier(g, owner, i, b, k);
    DataSetIs(g, i, b, k, Ptr(g, i, SlotOf(k)));
  }

  lemma {:induction false} NotEarlier(g: Fs, owner: map<nat, Owner>, i: nat, b: nat, k: nat)
    requires HasBlock(g, i, k) && Tree(g, owner)
    ensures !IsData(g, i, b, k, Ptr(g, i, SlotOf(k)))
  {
    var c: nat := Ptr(g, i, SlotOf(k));
    forall bn: nat | b <= bn < k ensures !DataAt(g, i, bn, c) {
      if DataAt(g, i, bn, c) { SlotOfInjective(bn, k); }
    }
  }

  /** The index block in slot s, if one of its entries is new. */
  ghost function Pointing(g: Fs, i: nat, s: Slot, changed: bool): (r: set<nat>)
    requires i < |g.inodes| && ValidSlot(s)
  {
    if changed then {Ptr(g, i, s) as nat} else {}
  }

  ghost function IndexSet(f: Fs, g: Fs, i: nat, b: nat, e: nat): (s: set<nat>)
    requires i < |f.inodes| && i < |g.inodes| && e <= MAXFILE
  {
    if b < e && NDIRECT < e then
      Pointing(g, i, Root, Missing(f, i, First()) == 1) + Pointing(g, i, First(), Missing(f, i, Second()) == 1)
      + Pointing(g, i, Second(), DataNeeds(f, i, Beyond(b), e) > 0)
    else {}
  }

  /** The slots filled are on the paths, and what they send to the log is in the three sets. */
  lemma {:induction false} SectorsIn(sb: Super, x: Vol, y: Vol, i: nat, b: nat, e: nat, t: Slot, c: nat)
    requires Steps(sb, x, y, i, b, e) && FilledFor(x.f, y.f, i, b, e) && e <= MAXFILE
    requires Newly(x.f, y.f, i, t) && SectorFor(sb, y.f, i, t, c)
    ensures c in DataSet(y.f, i, b, e) + IndexSet(x.f, y.f, i, b, e) + BitmapOf(sb, y.used - x.used)
  {
    assert NewBlock(x.f, y.f, i, Ptr(y.f, i, t));
    assert Within(t, b, e);
    var bn: nat :| b <= bn < e && Leads(t, bn);
    PathTo(bn, t);
    if t == SlotOf(bn) {
      LeafSectors(sb, x, y, i, b, e, bn, c);
    } else {
      IndexSectors(sb, x, y, i, b, e, t, c);
    }
  }

  lemma {:induction false} LeafSectors(sb: Super, x: Vol, y: Vol, i: nat, b: nat, e: nat, bn: nat, c: nat)
    requires Steps(sb, x, y, i, b, e) && FilledFor(x.f, y.f, i, b, e) && b <= bn < e <= MAXFILE
    requires Newly(x.f, y.f, i, SlotOf(bn)) && SectorFor(sb, y.f, i, SlotOf(bn), c)
    ensures c in DataSet(y.f, i, b, e) + IndexSet(x.f, y.f, i, b, e) + BitmapOf(sb, y.used - x.used)
  {
    PathTo(bn, Root);
    assert NewBlock(x.f, y.f, i, Ptr(y.f, i, SlotOf(bn)));
    if c == Ptr(y.f, i, SlotOf(bn)) {
      assert DataAt(y.f, i, bn, c);
      DataSetIs(y.f, i, b, e, c);
    }
    if bn >= NDIRECT {
      assert LacksBlock(x.f, i, bn);
      SomeMissing(x.f, i, Beyond(b), e);
    }
  }

  lemma {:induction false} IndexSectors(sb: Super, x: Vol, y: Vol, i: nat, b: nat, e: nat, t: Slot, c: nat)
    requires Steps(sb, x, y, i, b, e) && b < e && NDIRECT < e <= MAXFILE
    requires t in {Root, First(), Second()} && Newly(x.f, y.f, i, t) && SectorFor(sb, y.f, i, t, c)
    ensures c in IndexSet(x.f, y.f, i, b, e) + BitmapOf(sb, y.used - x.used)
  {
    assert NewBlock(x.f, y.f, i, Ptr(y.f, i, t));
    EmptyBelow(x.f, i, b, e);
  }

  /** Nothing is below an empty slot. */
  lemma {:induction false} EmptyBelow(f: Fs, i: nat, b: nat, e: nat)
    requires i < |f.inodes| && b < e && NDIRECT < e <= MAXFILE
    ensures Ptr(f, i, Root) == 0 ==> Ptr(f, i, First()) == 0
    ensures Ptr(f, i, First()) == 0 ==> Ptr(f, i, Second()) == 0
    ensures Ptr(f, i, Second()) == 0 ==> DataNeeds(f, i, Beyond(b), e) > 0
  {
    assert Ptr(f, i, Root) == 0 ==> Ptr(f, i, First()) == 0;
    assert Ptr(f, i, First()) == 0 ==> Ptr(f, i, Second()) == 0;
    if Ptr(f, i, Second()) == 0 {
      PathTo(e - 1, Root);
      assert LacksBlock(f, i, e - 1);
      SomeMissing(f, i, Beyond(b), e);
    }
  }

  /** All that is in the three sets was logged. */
  lemma {:induction false} SetsLogged(sb: Super, x: Vol, y: Vol, i: nat, b: nat, e: nat, c: nat)
    requires Steps(sb, x, y, i, b, e) && FilledFor(x.f, y.f, i, b, e) && e <= MAXFILE
    requires c in DataSet(y.f, i, b, e) + IndexSet(x.f, y.f, i, b, e) + BitmapOf(sb, y.used - x.used)
    ensures c in y.logged
  {
    if c in DataSet(y.f, i, b, e) {
      DataSetIs(y.f, i, b, e, c);
    } else if c in BitmapOf(sb, y.used - x.used) {
      var a :| a in y.used - x.used && c == BBlock(sb, a);
      assert NewBlock(x.f, y.f, i, a);
      var t :| Newly(x.f, y.f, i, t) && Ptr(y.f, i, t) == a;
      assert SectorFor(sb, y.f, i, t, c);
    } else {
      IndexLogged(sb, x, y, i, b, e, c);
    }
  }

  lemma {:induction false} IndexLogged(sb: Super, x: Vol, y: Vol, i: nat, b: nat, e: nat, c: nat)
    requires Steps(sb, x, y, i, b, e) && FilledFor(x.f, y.f, i, b, e) && e <= MAXFILE && c in IndexSet(x.f, y.f, i, b, e)
    ensures c in y.logged
  {
    IndexWithin(First(), b, e);
    IndexWithin(Second(), b, e);
    if Missing(x.f, i, First()) == 1 && c == Ptr(y.f, i, Root) {
      assert Newly(x.f, y.f, i, First()) && SectorFor(sb, y.f, i, First(), c);
    } else if Missing(x.f, i, Second()) == 1 && c == Ptr(y.f, i, First()) {
      assert Newly(x.f, y.f, i, Second()) && SectorFor(sb, y.f, i, Second(), c);
    } else {
      SomeMissing(x.f, i, Beyond(b), e);
      var bn: nat :| Beyond(b) <= bn < e && LacksBlock(x.f, i, bn);
      PathTo(bn, Root);
      LeafWithin(b, e, bn);
      assert Newly(x.f, y.f, i, SlotOf(bn)) && SectorFor(sb, y.f, i, SlotOf(bn), c);
    }
  }

  // ---- counting them ------------------------------------------------------------------------------

  lemma {:induction false} LoggedIs(sb: Super, x: Vol, y: Vol, i: nat, b: nat, e: nat)
    requires Steps(sb, x, y, i, b, e) && FilledFor(x.f, y.f, i, b, e) && e <= MAXFILE && x.logged == {}
    ensures y.logged == DataSet(y.f, i, b, e) + IndexSet(x.f, y.f, i, b, e) + BitmapOf(sb, y.used - x.used)
  {
    forall c | c in y.logged ensures c in DataSet(y.f, i, b, e) + IndexSet(x.f, y.f, i, b, e) + BitmapOf(sb, y.used - x.used) {
      if IsData(y.f, i, b, e, c) {
        DataSetIs(y.f, i, b, e, c);
      } else {
        var t :| Newly(x.f, y.f, i, t) && SectorFor(sb, y.f, i, t, c);
        SectorsIn(sb, x, y, i, b, e, t, c);
      }
    }
    forall c | c in DataSet(y.f, i, b, e) + IndexSet(x.f, y.f, i, b, e) + BitmapOf(sb, y.used - x.used) ensures c in y.logged {
      SetsLogged(sb, x, y, i, b, e, c);
    }
  }

  /** The index blocks are three different ones, and none of the data blocks. */
  lemma {:induction false} IndexCount(f: Fs, g: Fs, owner: map<nat, Owner>, i: nat, b: nat, e: nat)
    requires Tree(g, owner) && FilledFor(f, g, i, b, e) && e <= MAXFILE
    ensures |IndexSet(f, g, i, b, e)| == IndexLogs(f, i, b, e)
    ensures forall c :: c in IndexSet(f, g, i, b, e) ==> c in owner && owner[c].slot in {Root, First(), Second()}
  {
    IndexWithin(Root, b, e);
    IndexWithin(First(), b, e);
    IndexWithin(Second(), b, e);
    assert First() != Root && Second() != Root && First() != Second();
  }

  lemma {:induction false} DataOwned(g: Fs, owner: map<nat, Owner>, i: nat, b: nat, e: nat, c: nat)
    requires b <= e && HasData(g, i, b, e) && Tree(g, owner) && c in DataSet(g, i, b, e)
    ensures c in owner && IsLeaf(owner[c].slot)
  {
    DataSetIs(g, i, b, e, c);
  }

  lemma {:induction false} BitmapBelow(sb: Super, used: set<nat>, c: nat)
    requires 0 < sb.size && BBlock(sb, sb.size - 1) < sb.lo && (forall b :: b in used ==> b < sb.size) && c in BitmapOf(sb, used)
    ensures c < sb.lo && BBlock(sb, 0) <= c <= BBlock(sb, sb.size - 1)
  {
    var b :| b in used && c == BBlock(sb, b);
    BBlockBound(sb, b);
  }

  /** The number of sectors logged is the closed form. */
  lemma {:induction false} LogCount(sb: Super, x: Vol, y: Vol, owner: map<nat, Owner>, i: nat, b: nat, e: nat)
    requires Steps(sb, x, y, i, b, e) && FilledFor(x.f, y.f, i, b, e) && e <= MAXFILE && x.logged == {}
    requires Consistent(sb, y.f, owner, y.used) && |y.used| == |x.used| + WriteNeeds(x.f, i, b, e)
    ensures |y.logged| == LogNeeds(sb, x.f, x.used, i, b, e)
  {
    LoggedIs(sb, x, y, i, b, e);
    TakenIs(x.used, y.used, sb.size, WriteNeeds(x.f, i, b, e));
    DataCount(y.f, owner, i, b, e);
    IndexCount(x.f, y.f, owner, i, b, e);
    var data, index, bits := DataSet(y.f, i, b, e), IndexSet(x.f, y.f, i, b, e), BitmapOf(sb, y.used - x.used);
    forall c | c in data ensures c !in index && c !in bits {
      DataOwned(y.f, owner, i, b, e, c);
      if c in bits { BitmapBelow(sb, y.used - x.used, c); }
    }
    forall c | c in index ensures c !in bits {
      if c in bits { BitmapBelow(sb, y.used - x.used, c); }
    }
    ThreeSets(data, index, bits);
  }

  lemma ThreeSets(a: set<nat>, b: set<nat>, c: set<nat>)
    requires a !! b && a !! c && b !! c
    ensures |a + b + c| == |a| + |b| + |c|
  {
  }

  lemma {:induction false} StepsAt(sb: Super, x: Vol, y: Vol, i: nat, j: nat, k: nat)
    requires Steps(sb, x, y, i, j, j)
    ensures Steps(sb, x, y, i, k, k)
  {
    forall c ensures !IsData(y.f, i, j, j, c) && !IsData(y.f, i, k, k, c) { }
  }

  // ---- a whole write ------------------------------------------------------------------------------

  /** The data blocks [b, e) have been written: their slots are filled with the lowest free blocks,
      as many as they lacked, and what was logged is what Steps says. */
  ghost predicate Progress(sb: Super, x: Vol, y: Vol, i: nat, b: nat, e: nat)
  {
    && e <= MAXFILE && Steps(sb, x, y, i, b, e) && FilledFor(x.f, y.f, i, b, e)
    && |y.used| == |x.used| + WriteNeeds(x.f, i, b, e)
  }

  lemma {:induction false} ProgressNone(sb: Super, x: Vol, i: nat, b: nat)
    requires i < |x.f.inodes| && b <= MAXFILE
    ensures Progress(sb, x, x, i, b, b)
  {
    StepsNone(sb, x, i, b);
  }

  /** One data block more: block e, before block n. */
  ghost predicate OneBlock(sb: Super, y: Vol, z: Vol, i: nat, e: nat, n: nat)
  {
    && n == e + 1 && e < MAXBLOCKS && Steps(sb, y, z, i, e, n) && OnlyPath(y.f, z.f, i, SlotOf(e)) && i < |y.f.inodes|
    && |z.used| == |y.used| + EmptyOn(y.f, i, SlotOf(e))
  }

  lemma {:induction false} ProgressNext(sb: Super, x: Vol, y: Vol, z: Vol, i: nat, b: nat, e: nat, n: nat)
    requires e < MAXFILE
    ensures Progress(sb, x, y, i, b, e) && OneBlock(sb, y, z, i, e, n) ==> Progress(sb, x, z, i, b, n)
  {
    if Progress(sb, x, y, i, b, e) && OneBlock(sb, y, z, i, e, n) {
      StepsTrans(sb, x, y, z, i, b, e, n);
      assert HasBlock(z.f, i, e);
      FilledNextFor(x.f, y.f, z.f, i, b, e);
      NeedsNext(x.f, y.f, i, b, e);
    }
  }

  /** bmap, which found block bn or made it. */
  ghost predicate Found(sb: Super, x: Vol, y: Vol, i: nat, bn: nat)
  {
    && bn < MAXBLOCKS && Steps(sb, x, y, i, bn, bn) && OnlyPath(x.f, y.f, i, SlotOf(bn)) && (Ptr(x.f, i, SlotOf(bn)) != 0 ==> y == x)
    && |y.used| == |x.used| + EmptyOn(x.f, i, SlotOf(bn)) && Ptr(y.f, i, SlotOf(bn)) != 0
  }

  /** bmap and then the store of the data block. */
  lemma {:induction false} BlockWritten(sb: Super, x: Vol, y: Vol, z: Vol, i: nat, bn: nat, n: nat)
    requires n == bn + 1
    ensures Found(sb, x, y, i, bn) && Steps(sb, y, z, i, bn, n) && KeepsPtrs(z.f, y.f) && z.used == y.used ==>
              OneBlock(sb, x, z, i, bn, n) && (Again(x, i, bn) <==> Ptr(y.f, i, SlotOf(bn)) as nat in y.logged)
  {
    if Found(sb, x, y, i, bn) && Steps(sb, y, z, i, bn, n) && KeepsPtrs(z.f, y.f) && z.used == y.used {
      StepsTrans(sb, x, y, z, i, bn, bn, n);
      BlockAgain(sb, x, y, i, bn);
    }
  }

  /** The block that is missing when the disk is full. */
  lemma {:induction false} NeedsMore(f: Fs, g: Fs, i: nat, b: nat, e: nat, last: nat)
    requires FilledFor(f, g, i, b, e) && b <= e < last <= MAXFILE
    ensures WriteNeeds(f, i, b, e) + EmptyOn(g, i, SlotOf(e)) <= WriteNeeds(f, i, b, last)
  {
    NeedsNext(f, g, i, b, e);
    DataMore(f, i, b, e + 1, last);
  }

  lemma {:induction false} DataMore(f: Fs, i: nat, b: nat, e: nat, last: nat)
    requires i < |f.inodes| && e <= last <= MAXFILE
    ensures DataNeeds(f, i, b, e) <= DataNeeds(f, i, b, last)
    decreases last
  {
    if e < last { DataMore(f, i, b, e, last - 1); }
  }

  /** A new size moves nothing. */
  lemma {:induction false} ProgressResized(sb: Super, x: Vol, y: Vol, z: Vol, i: nat, b: nat, e: nat)
    requires Progress(sb, x, y, i, b, e) && z.used == y.used && z.logged == y.logged
    requires z.f.blocks == y.f.blocks && |z.f.inodes| == |y.f.inodes|
    requires OnlyInode(y.f, z.f, i) && z.f.inodes[i].addrs == y.f.inodes[i].addrs
    ensures Progress(sb, x, z, i, b, e)
  {
    forall j, t | 0 <= j < |y.f.inodes| && ValidSlot(t) ensures Ptr(z.f, j, t) == Ptr(y.f, j, t) { ResizedPtr(y.f, z.f, j, t); }
    forall bn: nat | b <= bn < e ensures HasBlock(z.f, i, bn) { assert HasBlock(y.f, i, bn); }
    forall c ensures Logs(sb, x.f, z.f, i, c) <==> Logs(sb, x.f, y.f, i, c) { SameLogs(sb, x.f, y.f, z.f, i, c); }
    forall c ensures NewBlock(x.f, z.f, i, c) <==> NewBlock(x.f, y.f, i, c) { SameLogs(sb, x.f, y.f, z.f, i, c); }
    forall c ensures IsData(z.f, i, b, e, c) <==> IsData(y.f, i, b, e, c) { SameData(y.f, z.f, i, b, e, c); }
  }

  lemma {:induction false} SameLogs(sb: Super, x: Fs, y: Fs, z: Fs, i: nat, c: nat)
    requires |z.inodes| == |y.inodes| && forall j, t :: 0 <= j < |y.inodes| && ValidSlot(t) ==> Ptr(z, j, t) == Ptr(y, j, t)
    ensures Logs(sb, x, z, i, c) <==> Logs(sb, x, y, i, c)
    ensures NewBlock(x, z, i, c) <==> NewBlock(x, y, i, c)
  {
    forall t | ValidSlot(t) && i < |y.inodes|
      ensures Newly(x, z, i, t) <==> Newly(x, y, i, t)
      ensures SectorFor(sb, z, i, t, c) <==> SectorFor(sb, y, i, t, c)
    {
    }
  }

  lemma {:induction false} SameData(y: Fs, z: Fs, i: nat, b: nat, e: nat, c: nat)
    requires |z.inodes| == |y.inodes| && forall j, t :: 0 <= j < |y.inodes| && ValidSlot(t) ==> Ptr(z, j, t) == Ptr(y, j, t)
    ensures IsData(z, i, b, e, c) <==> IsData(y, i, b, e, c)
  {
    forall bn: nat | b <= bn < e ensures DataAt(z, i, bn, c) <==> DataAt(y, i, bn, c) { }
  }

  // ---- bounds -------------------------------------------------------------------------------------

  /** How many bitmap sectors there are. */
  function BitmapSectors(sb: Super): (n: nat)
    requires 0 < sb.size
  {
    (sb.size - 1) / BPB + 1
  }

  lemma {:induction false} TakenWithin(used: set<nat>, size: nat, k: nat)
    requires (forall b :: b in used ==> b < size) && |used| + k <= size
    ensures forall b :: b in Taken(used, size, k) ==> b < size
    decreases k
  {
    if k > 0 {
      var a := Lowest(used, 0, size);
      if a == size { AllUsed(used, size); }
      TakenWithin(used + {a}, size, k - 1);
    }
  }

  /** At most three index blocks and every bitmap sector besides the data blocks. */
  lemma {:induction false} LogBound(sb: Super, f: Fs, used: set<nat>, i: nat, b: nat, e: nat)
    requires i < |f.inodes| && b <= e <= MAXFILE && 0 < sb.size && BBlock(sb, sb.size - 1) < sb.lo
    requires (forall c :: c in used ==> c < sb.size) && |used| + WriteNeeds(f, i, b, e) <= sb.size
    ensures LogNeeds(sb, f, used, i, b, e) <= e - b + 3 + BitmapSectors(sb)
  {
    TakenWithin(used, sb.size, WriteNeeds(f, i, b, e));
    BitmapCount(sb, Taken(used, sb.size, WriteNeeds(f, i, b, e)) - used);
  }

  lemma {:induction false} BitmapCount(sb: Super, s: set<nat>)
    requires 0 < sb.size && BBlock(sb, sb.size - 1) < sb.lo && forall b :: b in s ==> b < sb.size
    ensures |BitmapOf(sb, s)| <= BitmapSectors(sb)
  {
    var lo, hi := BBlock(sb, 0), BBlock(sb, sb.size - 1) + 1;
    assert hi - lo == BitmapSectors(sb);
    forall c | c in BitmapOf(sb, s) ensures c in Range(lo, hi) { BitmapBelow(sb, s, c); }
    SubsetCount(BitmapOf(sb, s), Range(lo, hi));
    RangeCount(lo, hi);
  }

  // ---- balloc and the store of its result ---------------------------------------------------------

  /** The volume after balloc has taken block a, leaving m but for the zeroed block, and a has been
      stored in the empty slot s. */
  lemma {:induction false} GrowStep(sb: Super, x: Vol, m: Disk, owner: map<nat, Owner>, i: nat, s: Slot, a: nat) returns (y: Vol)
    requires Consistent(sb, x.f, owner, x.used) && i < |x.f.inodes| && ValidSlot(s) && Ptr(x.f, i, s) == 0
    requires s.Child? ==> Ptr(x.f, i, s.parent) != 0
    requires a !in x.used && a < sb.size && OnlyBitmap(sb, x.f.blocks, m, a) && BitsAre(sb, m, x.used + {a})
    requires forall b :: 0 <= b < a ==> b in x.used
    ensures a != 0 && (s.Child? ==> 0 < Ptr(x.f, i, s.parent) < |m| && Ptr(x.f, i, s.parent) != a)
    ensures y.f == Stored(Fs(m[a := Zero()], x.f.inodes), i, s, if s.Child? then Ptr(x.f, i, s.parent) else 0, a)
    ensures y.used == x.used + {a} && y.logged == x.logged + {BBlock(sb, a), a} + if s.Child? then {Ptr(x.f, i, s.parent) as nat} else {}
    ensures Consistent(sb, y.f, owner[a := Owner(i, s)], y.used) && Steps(sb, x, y, i, 0, 0)
    ensures Filled(x.f, |x.used|, y.f, |y.used|, i, s, Some(a), sb.size)
    ensures NoLeak(sb, owner, x.used) ==> NoLeak(sb, owner[a := Owner(i, s)], y.used)
  {
    var g := GrowSlot(sb, x.f, m, owner, x.used, i, s, a);
    y := Vol(g, x.used + {a}, x.logged + {BBlock(sb, a), a} + if s.Child? then {Ptr(x.f, i, s.parent) as nat} else {});
    OneMore(x.used, a);
    StoredElsewhere(sb, x.f, m, i, s, if s.Child? then Ptr(x.f, i, s.parent) else 0, a);
    StepsFill(sb, x, y, i, s, a, 0);
  }

  /** Sectors the store does not touch. */
  lemma {:induction false} StoredElsewhere(sb: Super, f: Fs, m: Disk, i: nat, s: Slot, q: nat, a: nat)
    requires i < |f.inodes| && ValidSlot(s) && (s.Child? ==> q < |m|) && a < |m| && a < UINT && OnlyBitmap(sb, f.blocks, m, a)
    ensures var g := Stored(Fs(m[a := Zero()], f.inodes), i, s, q, a);
            && OnlyInode(f, g, i)
            && forall c :: 0 <= c < |f.blocks| && c != a && c != BBlock(sb, a) && !(s.Child? && c == q) ==> g.blocks[c] == f.blocks[c]
  {
  }

  /** The index block is neither the new block nor in the bitmap. */
  lemma {:induction false} OtherBlock(sb: Super, f: Fs, m: Disk, owner: map<nat, Owner>, used: set<nat>, i: nat, s: Slot, a: nat)
    requires Tree(f, owner) && i < |f.inodes| && ValidSlot(s) && (forall b :: b in owner ==> sb.lo <= b < sb.size && b != a)
    requires OnlyBitmap(sb, f.blocks, m, a) && Layout(sb, f.blocks) && a < sb.size
    requires s.Child? ==> Ptr(f, i, s.parent) != 0
    ensures s.Child? ==> Ptr(f, i, s.parent) < |f.blocks| && m[a := Zero()][Ptr(f, i, s.parent)] == f.blocks[Ptr(f, i, s.parent)]
  {
    BBlockBound(sb, a);
  }

  /** No free block, no step. */
  lemma {:induction false} FullStep(sb: Super, x: Vol, i: nat, s: Slot)
    requires i < |x.f.inodes| && ValidSlot(s) && Ptr(x.f, i, s) == 0 && forall b :: 0 <= b < sb.size ==> b in x.used
    ensures Steps(sb, x, x, i, 0, 0) && Filled(x.f, |x.used|, x.f, |x.used|, i, s, None, sb.size)
  {
    StepsNone(sb, x, i, 0);
    AllUsed(x.used, sb.size);
  }

  /** The slot is filled already. */
  lemma {:induction false} FoundStep(sb: Super, x: Vol, i: nat, s: Slot)
    requires i < |x.f.inodes| && ValidSlot(s) && Ptr(x.f, i, s) != 0
    ensures Steps(sb, x, x, i, 0, 0) && Filled(x.f, |x.used|, x.f, |x.used|, i, s, Some(Ptr(x.f, i, s)), sb.size)
  {
    StepsNone(sb, x, i, 0);
  }

  /** One level further down the path. */
  lemma {:induction false} BelowStep(sb: Super, x: Vol, y: Vol, z: Vol, i: nat, p: Slot, a: nat, k: nat, r: Option<nat>)
    requires i < |x.f.inodes| && ValidSlot(Child(p, k))
    requires Placed(x.f, |x.used|, y.f, |y.used|, i, p, Some(a), sb.size) && Steps(sb, x, y, i, 0, 0)
    requires Filled(y.f, |y.used|, z.f, |z.used|, i, Child(p, k), r, sb.size) && Steps(sb, y, z, i, 0, 0)
    ensures Placed(x.f, |x.used|, z.f, |z.used|, i, Child(p, k), r, sb.size) && Steps(sb, x, z, i, 0, 0)
  {
    FilledBelow(x.f, |x.used|, y.f, |y.used|, z.f, |z.used|, i, p, a, k, r, sb.size);
    StepsTrans(sb, x, y, z, i, 0, 0, 0);
  }

  /** The store of data block bn. */
  lemma {:induction false} RewriteStep(sb: Super, x: Vol, owner: map<nat, Owner>, i: nat, bn: nat, d: Block)
    requires Tree(x.f, owner) && i < |x.f.inodes| && bn < MAXBLOCKS && Ptr(x.f, i, SlotOf(bn)) != 0
    ensures Ptr(x.f, i, SlotOf(bn)) < |x.f.blocks|
    ensures var g := Rewritten(x.f, i, SlotOf(bn), d);
            && KeepsPtrs(g, x.f)
            && Steps(sb, x, Vol(g, x.used, x.logged + {Ptr(x.f, i, SlotOf(bn)) as nat}), i, bn, bn + 1)
  {
    var g := Rewritten(x.f, i, SlotOf(bn), d);
    forall j, t | 0 <= j < |x.f.inodes| && ValidSlot(t) ensures Ptr(g, j, t) == Ptr(x.f, j, t) { RewrittenPtr(x.f, owner, i, SlotOf(bn), d, j, t); }
    StepsData(sb, x, Vol(g, x.used, x.logged + {Ptr(x.f, i, SlotOf(bn)) as nat}), i, bn);
  }

  /** The size after n bytes at off. */
  function GrownSize(size: nat, off: nat, n: nat): (r: nat)
  {
    if n > 0 && off + n > size then off + n else size
  }

  /** The written volume y with the new size. */
  lemma {:induction false} SizeGrown(sb: Super, x: Vol, y: Vol, owner: map<nat, Owner>, i: nat, off: nat, src: seq<Byte>) returns (z: Vol)
    requires i < |y.f.inodes| && Consistent(sb, y.f, owner, y.used) && off <= y.f.inodes[i].size && off + |src| <= MAXFILE * BSIZE
    requires Patched(x.f, y.f, i, off, src) && Progress(sb, x, y, i, off / BSIZE, EndBlock(off, |src|))
    ensures z == y.(f := Fs(y.f.blocks, y.f.inodes[i := Inode(GrownSize(y.f.inodes[i].size, off, |src|), y.f.inodes[i].addrs)]))
    ensures y.f.inodes[i].size == x.f.inodes[i].size && Consistent(sb, z.f, owner, z.used) && |z.used| <= sb.size
    ensures Progress(sb, x, z, i, off / BSIZE, EndBlock(off, |src|))
    ensures off <= |Contents(x.f, i)| && Contents(z.f, i) == Written(Contents(x.f, i), off, src)
    ensures forall j :: 0 <= j < |z.f.inodes| && j != i ==> Contents(z.f, j) == Contents(x.f, j)
  {
    z := y.(f := Fs(y.f.blocks, y.f.inodes[i := Inode(GrownSize(y.f.inodes[i].size, off, |src|), y.f.inodes[i].addrs)]));
    Resized(sb, y.f, z.f, owner, y.used, i);
    ProgressResized(sb, x, y, z, i, off / BSIZE, EndBlock(off, |src|));
    WithinSize(z.used, sb.size);
    PatchedContents(x.f, z.f, i, off, src);
  }

  /** Fewer blocks are free than block bn lacks slots. */
  ghost predicate Stuck(sb: Super, x: Vol, i: nat, bn: nat)
  {
    i < |x.f.inodes| && bn < MAXBLOCKS && sb.size < |x.used| + EmptyOn(x.f, i, SlotOf(bn))
  }

  ghost function SetOf(calls: seq<nat>): (s: set<nat>)
  {
    set c | c in calls
  }

  lemma SetOfNext(calls: seq<nat>, c: nat)
    ensures SetOf(calls + [c]) == SetOf(calls) + {c}
  {
  }

  /** The last sector of the list was on it before. */
  predicate Repeats(calls: seq<nat>)
  {
    calls != [] && calls[|calls| - 1] in calls[..|calls| - 1]
  }

  /** A volume, the next data block to write, and whether the last log_write found its sector there. */
  datatype Point = Point(vol: Vol, next: nat, again: bool)

  /** The points between the data blocks written. */
  ghost predicate Chain(sb: Super, hist: seq<Point>, i: nat)
  {
    |hist| > 0 && i < |hist[0].vol.f.inodes| && forall k :: 0 <= k < |hist| - 1 ==> Link(sb, hist, i, k)
  }

  ghost predicate Turn(sb: Super, p: Point, q: Point, i: nat)
  {
    OneBlock(sb, p.vol, q.vol, i, p.next, q.next) && (q.again <==> Again(p.vol, i, p.next))
  }

  ghost predicate Link(sb: Super, hist: seq<Point>, i: nat, k: nat)
    requires k + 1 < |hist|
  {
    Turn(sb, hist[k], hist[k + 1], i)
  }

  /** The store of data block bn logs a sector that was logged before. */
  ghost predicate Again(x: Vol, i: nat, bn: nat)
  {
    i < |x.f.inodes| && bn < MAXBLOCKS && (Ptr(x.f, i, SlotOf(bn)) == 0 || Ptr(x.f, i, SlotOf(bn)) as nat in x.logged)
  }

  lemma {:induction false} BlockAgain(sb: Super, x: Vol, y: Vol, i: nat, bn: nat)
    requires bn < MAXBLOCKS && Steps(sb, x, y, i, bn, bn) && Ptr(y.f, i, SlotOf(bn)) != 0
    requires Ptr(x.f, i, SlotOf(bn)) != 0 ==> y == x
    ensures Again(x, i, bn) <==> Ptr(y.f, i, SlotOf(bn)) as nat in y.logged
  {
    if Ptr(x.f, i, SlotOf(bn)) == 0 {
      assert Newly(x.f, y.f, i, SlotOf(bn)) && SectorFor(sb, y.f, i, SlotOf(bn), Ptr(y.f, i, SlotOf(bn)) as nat);
    }
  }

  /** The last data block before `last` has no block yet. */
  predicate LastMissing(f: Fs, i: nat, last: nat)
  {
    i < |f.inodes| && 0 < last <= MAXFILE && Ptr(f, i, SlotOf(last - 1)) == 0
  }

  /** A block in its slot was logged by the time the later blocks of the file were written only if it
      was new: no other slot has it, and it is no bitmap sector. */
  lemma {:induction false} NotLogged(sb: Super, x: Vol, y: Vol, z: Fs, owner: map<nat, Owner>, i: nat, b: nat, e: nat, s: Slot)
    requires e < MAXBLOCKS && s == SlotOf(e)
    requires Progress(sb, x, y, i, b, e) && x.logged == {} && e < MAXFILE && KeepsPtrs(y.f, z) && Tree(z, owner)
    requires (forall c :: c in owner ==> c >= sb.lo) && (forall c :: c in y.used ==> BBlock(sb, c) < sb.lo)
    requires Ptr(x.f, i, s) != 0
    ensures Ptr(y.f, i, s) == Ptr(x.f, i, s) && Ptr(y.f, i, s) as nat !in y.logged
  {
    var a := Ptr(y.f, i, s) as nat;
    NotData(y.f, z, owner, i, b, e);
    assert owner[a] == Owner(i, s);
    NotForNew(sb, x, y, z, owner, i, s, a);
  }

  lemma {:induction false} NotForNew(sb: Super, x: Vol, y: Vol, z: Fs, owner: map<nat, Owner>, i: nat, s: Slot, a: nat)
    requires TookForSlots(x, y, i) && KeepsPtrs(y.f, z) && Tree(z, owner) && i < |x.f.inodes| && i < |y.f.inodes|
    requires (forall c :: c in y.used ==> BBlock(sb, c) < sb.lo) && a >= sb.lo
    requires ValidSlot(s) && IsLeaf(s) && Ptr(x.f, i, s) != 0 && a == Ptr(y.f, i, s) != 0
    ensures !Logs(sb, x.f, y.f, i, a)
  {
    if Logs(sb, x.f, y.f, i, a) {
      var t :| Newly(x.f, y.f, i, t) && SectorFor(sb, y.f, i, t, a);
      NewlyOther(sb, x.f, y.f, z, owner, i, t, s, a);
      assert NewBlock(x.f, y.f, i, Ptr(y.f, i, t) as nat);
      assert false;
    }
  }

  lemma {:induction false} NotData(y: Fs, z: Fs, owner: map<nat, Owner>, i: nat, b: nat, e: nat)
    requires KeepsPtrs(y, z) && Tree(z, owner) && i < |y.inodes| && e < MAXFILE
    ensures Ptr(y, i, SlotOf(e)) != 0 ==> !IsData(y, i, b, e, Ptr(y, i, SlotOf(e)) as nat)
  {
    if Ptr(y, i, SlotOf(e)) != 0 && IsData(y, i, b, e, Ptr(y, i, SlotOf(e)) as nat) {
      var bn: nat :| b <= bn < e && DataAt(y, i, bn, Ptr(y, i, SlotOf(e)) as nat);
      PtrInjective(z, owner, i, SlotOf(bn), i, SlotOf(e));
      SlotOfInjective(bn, e);
      assert false;
    }
  }

  lemma {:induction false} NewlyOther(sb: Super, x: Fs, y: Fs, z: Fs, owner: map<nat, Owner>, i: nat, t: Slot, s: Slot, a: nat)
    requires Newly(x, y, i, t) && SectorFor(sb, y, i, t, a) && KeepsPtrs(y, z) && Tree(z, owner) && i < |x.inodes|
    requires ValidSlot(s) && IsLeaf(s) && Ptr(x, i, s) != 0 && a == Ptr(y, i, s) != 0
    ensures a == BBlock(sb, Ptr(y, i, t) as nat)
  {
    if a == Ptr(y, i, t) {
      PtrInjective(z, owner, i, t, i, s);
      assert false;
    }
    if t.Child? && a == Ptr(y, i, t.parent) {
      PtrInjective(z, owner, i, t.parent, i, s);
      assert false;
    }
  }

  lemma {:induction false} AgainIff(sb: Super, x: Vol, p: Vol, z: Vol, owner: map<nat, Owner>, i: nat, b: nat, e: nat)
    requires Progress(sb, x, p, i, b, e) && x.logged == {} && e < MAXFILE && KeepsPtrs(p.f, z.f) && p.used <= z.used
    requires Consistent(sb, z.f, owner, z.used)
    ensures Again(p, i, e) <==> Ptr(x.f, i, SlotOf(e)) == 0
  {
    if Ptr(x.f, i, SlotOf(e)) != 0 {
      forall c | c in p.used ensures BBlock(sb, c) < sb.lo { BBlockBound(sb, c); }
      NotLogged(sb, x, p, z.f, owner, i, b, e, SlotOf(e));
    } else {
      LeafWithin(b, e, e);
    }
  }

  lemma {:induction false} TurnKeeps(sb: Super, p: Point, q: Point, i: nat)
    ensures Turn(sb, p, q, i) ==> KeepsPtrs(p.vol.f, q.vol.f) && p.vol.used <= q.vol.used && q.next == p.next + 1 && (q.again <==> Again(p.vol, i, p.next))
  {
  }

  lemma {:induction false} LastTurn(sb: Super, hist: seq<Point>, i: nat, k: nat, p: Point, q: Point)
    requires Chain(sb, hist, i) && k + 1 < |hist| && p == hist[k] && q == hist[k + 1]
    ensures Turn(sb, p, q, i)
  {
    assert Link(sb, hist, i, k);
  }

  /** writei's last log_write is of a sector logged before exactly if the last data block is new. */
  lemma {:induction false} LastAgain(sb: Super, hist: seq<Point>, owner: map<nat, Owner>, i: nat, q: Point)
    requires Chain(sb, hist, i) && q == hist[|hist| - 1] && hist[0].next < q.next <= MAXFILE && hist[0].vol.logged == {}
    requires Consistent(sb, q.vol.f, owner, q.vol.used)
    ensures q.again <==> LastMissing(hist[0].vol.f, i, q.next)
  {
    var k := |hist| - 2;
    var x, p := hist[0], hist[k];
    LastTurn(sb, hist, i, k, p, q);
    ChainProgress(sb, hist, i, k);
    TurnKeeps(sb, p, q, i);
    AgainIff(sb, x.vol, p.vol, q.vol, owner, i, x.next, p.next);
  }

  lemma {:induction false} ChainNext(sb: Super, hist: seq<Point>, i: nat, y: Point)
    ensures Chain(sb, hist, i) && Turn(sb, hist[|hist| - 1], y, i) ==> Chain(sb, hist + [y], i)
  {
    if Chain(sb, hist, i) && Turn(sb, hist[|hist| - 1], y, i) {
      forall k | 0 <= k < |hist| ensures Link(sb, hist + [y], i, k) {
        if k < |hist| - 1 { assert Link(sb, hist, i, k); }
      }
    }
  }

  lemma {:induction false} ChainProgress(sb: Super, hist: seq<Point>, i: nat, k: nat)
    requires Chain(sb, hist, i) && k < |hist| && hist[k].next <= MAXFILE
    ensures hist[0].next <= hist[k].next && Progress(sb, hist[0].vol, hist[k].vol, i, hist[0].next, hist[k].next)
    decreases k
  {
    if k == 0 {
      ProgressNone(sb, hist[0].vol, i, hist[0].next);
    } else {
      assert Link(sb, hist, i, k - 1);
      var p, q := hist[k - 1], hist[k];
      ChainProgress(sb, hist, i, k - 1);
      ProgressNext(sb, hist[0].vol, p.vol, q.vol, i, hist[0].next, p.next, q.next);
    }
  }

  /** The store of a piece of src into data block bn. */
  lemma {:induction false} PieceStored(sb: Super, f: Fs, x: Vol, owner: map<nat, Owner>, i: nat, off: nat, done: seq<Byte>, piece: seq<Byte>, at: nat, bn: nat, n: nat, d: Block)
      returns (y: Vol)
    requires Patched(f, x.f, i, off, done) && i < |x.f.inodes| && Consistent(sb, x.f, owner, x.used)
    requires at == off + |done| && bn == at / BSIZE < MAXBLOCKS && n == bn + 1 && at % BSIZE + |piece| <= BSIZE
    requires 0 < Ptr(x.f, i, SlotOf(bn)) < |x.f.blocks| && d == Splice(x.f.blocks[Ptr(x.f, i, SlotOf(bn))], at % BSIZE, piece)
    ensures y == Vol(Fs(x.f.blocks[Ptr(x.f, i, SlotOf(bn)) as nat := d], x.f.inodes), x.used, x.logged + {Ptr(x.f, i, SlotOf(bn)) as nat})
    ensures Patched(f, y.f, i, off, done + piece) && Consistent(sb, y.f, owner, y.used)
    ensures Steps(sb, x, y, i, bn, n) && KeepsPtrs(y.f, x.f)
  {
    PatchedRewrite(f, x.f, owner, i, off, done, piece, at, d);
    RewriteConsistent(sb, x.f, owner, x.used, i, SlotOf(bn), d);
    RewriteStep(sb, x, owner, i, bn, d);
    y := Vol(Rewritten(x.f, i, SlotOf(bn), d), x.used, x.logged + {Ptr(x.f, i, SlotOf(bn)) as nat});
  }

  // ---- one write after another --------------------------------------------------------------------

  /** The blocks [b, e), and then [c, d) from one of them or the next one on. */
  lemma {:induction false} FilledForTrans(f: Fs, g: Fs, h: Fs, i: nat, b: nat, e: nat, c: nat, d: nat)
    requires FilledFor(f, g, i, b, e) && FilledFor(g, h, i, c, d) && b <= c <= e <= d
    ensures FilledFor(f, h, i, b, d)
  {
    forall t | ValidSlot(t) ensures Within(t, b, d) <==> Within(t, b, e) || Within(t, c, d) { }
  }

  lemma {:induction false} NeedsAdd(f: Fs, g: Fs, i: nat, b: nat, e: nat, c: nat, d: nat)
    requires FilledFor(f, g, i, b, e) && b <= c <= e <= d <= MAXFILE
    ensures WriteNeeds(f, i, b, d) == WriteNeeds(f, i, b, e) + WriteNeeds(g, i, c, d)
  {
    DataAdd(f, g, i, b, e, c, d);
    IndexWithin(Root, b, e);
    IndexWithin(First(), b, e);
    IndexWithin(Second(), b, e);
  }

  lemma {:induction false} DataAdd(f: Fs, g: Fs, i: nat, b: nat, e: nat, c: nat, d: nat)
    requires FilledFor(f, g, i, b, e) && b <= c <= e <= d <= MAXFILE
    ensures DataNeeds(f, i, b, d) == DataNeeds(f, i, b, e) + DataNeeds(g, i, c, d)
    decreases d
  {
    if d > e {
      DataAdd(f, g, i, b, e, c, d - 1);
      LeafWithin(b, e, d - 1);
    } else {
      NothingMissing(f, g, i, b, e, c, d);
    }
  }

  lemma {:induction false} NothingMissing(f: Fs, g: Fs, i: nat, b: nat, e: nat, c: nat, d: nat)
    requires FilledFor(f, g, i, b, e) && b <= c && d <= e <= MAXFILE
    ensures DataNeeds(g, i, c, d) == 0
    decreases d
  {
    if c < d {
      NothingMissing(f, g, i, b, e, c, d - 1);
      LeafWithin(b, e, d - 1);
    }
  }
}
