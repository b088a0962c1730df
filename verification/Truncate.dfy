/** itrunc (fs.c): what it frees, and what it forgets.  It walks the direct slots and one
    level of the tree, while bmap builds three. */
module Truncate {
  import opened Wrappers
  import opened Blocks
  import opened Bitmap
  import opened FileIndex
  import opened Volumes
  import opened FileSystem

  /** The slots itrunc looks at. */
  predicate Shallow(s: Slot)
  {
    s.Direct? || s.Root? || (s.Child? && s.parent.Root?)
  }

  /** The blocks of inode i that sit in the slots S. */
  ghost function InSlots(owner: map<nat, Owner>, i: nat, S: set<Slot>): (r: set<nat>)
  {
    set b | b in owner && owner[b].inum == i && owner[b].slot in S
  }

  /** The blocks itrunc(i) frees. */
  ghost function Freed(owner: map<nat, Owner>, i: nat): (r: set<nat>)
  {
    set b | b in owner && owner[b].inum == i && Shallow(owner[b].slot)
  }

  /** Block b is one of the addresses of inode i or one of the words of its index block. */
  ghost predicate AtHand(f: Fs, i: nat, b: nat)
    requires i < |f.inodes|
  {
    var addrs := f.inodes[i].addrs;
    b != 0 && ((exists k :: 0 <= k <= NDIRECT && addrs[k] == b)
               || (0 < addrs[NDIRECT] < |f.blocks| && exists k :: 0 <= k < NINDIRECT && GetWord(f.blocks[addrs[NDIRECT]], k) == b))
  }

  lemma {:induction false} TopSlots(f: Fs, i: nat, k: nat)
    requires i < |f.inodes| && k < NINDIRECT
    ensures ValidSlot(Root) && Ptr(f, i, Root) == f.inodes[i].addrs[NDIRECT]
    ensures k < NDIRECT ==> ValidSlot(Direct(k)) && Ptr(f, i, Direct(k)) == f.inodes[i].addrs[k]
    ensures var q := f.inodes[i].addrs[NDIRECT];
            ValidSlot(Child(Root, k)) && Ptr(f, i, Child(Root, k)) == if q == 0 || q >= |f.blocks| then 0 else GetWord(f.blocks[q], k)
  {
    assert Depth(Root) == 0;
  }

  lemma {:induction false} FreedAtHand(f: Fs, owner: map<nat, Owner>, i: nat, b: nat)
    requires Tree(f, owner) && i < |f.inodes| && b in Freed(owner, i)
    ensures AtHand(f, i, b)
  {
    var s := owner[b].slot;
    assert b > 0 && ValidSlot(s) && Ptr(f, i, s) == b;
    if s.Child? {
      assert s == Child(Root, s.k);
      TopSlots(f, i, s.k);
    } else {
      TopSlots(f, i, if s.Direct? then s.i else 0);
    }
  }

  lemma {:induction false} AtHandFreed(f: Fs, owner: map<nat, Owner>, i: nat, b: nat)
    requires Tree(f, owner) && i < |f.inodes| && AtHand(f, i, b)
    ensures b in Freed(owner, i)
  {
    var addrs := f.inodes[i].addrs;
    if k :| 0 <= k <= NDIRECT && addrs[k] == b {
      TopSlots(f, i, if k < NDIRECT then k else 0);
      assert Ptr(f, i, if k == NDIRECT then Root else Direct(k)) == b;
    } else {
      var k :| 0 <= k < NINDIRECT && GetWord(f.blocks[addrs[NDIRECT]], k) == b;
      TopSlots(f, i, k);
      assert Ptr(f, i, Child(Root, k)) == b;
    }
  }

  /** Those are the blocks it frees. */
  lemma {:induction false} FreedIs(f: Fs, owner: map<nat, Owner>, i: nat, b: nat)
    requires Tree(f, owner) && i < |f.inodes|
    ensures b in Freed(owner, i) <==> AtHand(f, i, b)
  {
    if b in Freed(owner, i) { FreedAtHand(f, owner, i, b); }
    if AtHand(f, i, b) { AtHandFreed(f, owner, i, b); }
  }

  /** What is left of the ownership map without inode i. */
  ghost function Disowned(owner: map<nat, Owner>, i: nat): (r: map<nat, Owner>)
  {
    map b | b in owner && owner[b].inum != i :: owner[b]
  }

  lemma InSlotsAdd(f: Fs, owner: map<nat, Owner>, i: nat, S: set<Slot>, s: Slot)
    requires Tree(f, owner) && i < |f.inodes| && ValidSlot(s)
    ensures var a := Ptr(f, i, s);
            && (a == 0 ==> InSlots(owner, i, S + {s}) == InSlots(owner, i, S))
            && (a != 0 ==> a in owner && InSlots(owner, i, S + {s}) == InSlots(owner, i, S) + {a})
            && (a != 0 && s !in S ==> a !in InSlots(owner, i, S))
  {
  }

  /** An inode whose fields itrunc has reset. */
  function Emptied(f: Fs, i: nat): (g: Fs)
    requires i < |f.inodes|
  {
    Fs(f.blocks, f.inodes[i := Inode(0, seq(NDIRECT + 1, _ => 0))])
  }

  lemma {:induction false} EmptiedPtr(f: Fs, g: Fs, owner: map<nat, Owner>, i: nat, j: nat, t: Slot)
    requires Tree(f, owner) && i < |f.inodes| && j < |f.inodes| && ValidSlot(t)
    requires g.inodes == Emptied(f, i).inodes && |g.blocks| == |f.blocks|
    requires forall b :: b in owner ==> b < |f.blocks| && g.blocks[b] == f.blocks[b]
    ensures Ptr(g, j, t) == (if j == i then 0 else Ptr(f, j, t))
    decreases t
  {
    match t
    case Direct(_) =>
    case Root =>
    case Child(p, k) => EmptiedPtr(f, g, owner, i, j, p);
  }

  /** After itrunc the volume is consistent again, and no other file has changed. */
  lemma EmptiedConsistent(sb: Super, f: Fs, g: Fs, owner: map<nat, Owner>, used: set<nat>, i: nat, now: set<nat>)
    requires Consistent(sb, f, owner, used) && i < |f.inodes|
    requires g.inodes == Emptied(f, i).inodes && |g.blocks| == |f.blocks|
    requires forall b :: sb.lo <= b < |f.blocks| ==> g.blocks[b] == f.blocks[b]
    requires now == used - Freed(owner, i) && BitsAre(sb, g.blocks, now)
    ensures Consistent(sb, g, Disowned(owner, i), now)
    ensures forall j :: 0 <= j < |f.inodes| && j != i ==> Contents(g, j) == Contents(f, j)
  {
    forall j, t | 0 <= j < |f.inodes| && ValidSlot(t)
      ensures Ptr(g, j, t) == (if j == i then 0 else Ptr(f, j, t))
    {
      EmptiedPtr(f, g, owner, i, j, t);
    }
    forall j | 0 <= j < |f.inodes| && j != i ensures Contents(g, j) == Contents(f, j) {
      OtherContents(f, g, owner, i, j);
    }
  }

  lemma OtherContents(f: Fs, g: Fs, owner: map<nat, Owner>, i: nat, j: nat)
    requires Tree(f, owner) && i < |f.inodes| && j < |f.inodes| && i != j && f.inodes[j].size <= MAXBLOCKS * BSIZE
    requires g.inodes == Emptied(f, i).inodes && |g.blocks| == |f.blocks|
    requires forall b :: b in owner ==> b < |f.blocks| && g.blocks[b] == f.blocks[b]
    ensures Contents(g, j) == Contents(f, j)
  {
    forall o | 0 <= o < f.inodes[j].size ensures FileByte(g, j, o) == FileByte(f, j, o) {
      EmptiedPtr(f, g, owner, i, j, SlotOf(o / BSIZE));
    }
  }

  /** Truncation loses no block exactly when the file uses no slot below the first index
      level. */
  lemma TruncateLeaksIff(sb: Super, f: Fs, owner: map<nat, Owner>, used: set<nat>, i: nat)
    requires Consistent(sb, f, owner, used) && NoLeak(sb, owner, used) && i < |f.inodes|
    ensures NoLeak(sb, Disowned(owner, i), used - Freed(owner, i))
            <==> forall s :: ValidSlot(s) && !Shallow(s) ==> Ptr(f, i, s) == 0
  {
    if forall s :: ValidSlot(s) && !Shallow(s) ==> Ptr(f, i, s) == 0 {
    } else {
      var s :| ValidSlot(s) && !Shallow(s) && Ptr(f, i, s) != 0;
      var b := Ptr(f, i, s);
      assert b in used - Freed(owner, i) && b !in Disowned(owner, i);
    }
  }

  lemma {:induction false} BelowRoot(f: Fs, i: nat, s: Slot)
    requires i < |f.inodes| && ValidSlot(s) && !s.Direct? && Ptr(f, i, s) != 0
    ensures Ptr(f, i, Root) != 0
    decreases s
  {
    if s.Child? {
      BelowRoot(f, i, s.parent);
    }
  }

  /** In a tree as bmap leaves it, that means: the file has no index block. */
  lemma DirectFilesOnly(f: Fs, i: nat)
    requires i < |f.inodes| && Branching(f, i)
    ensures (forall s :: ValidSlot(s) && !Shallow(s) ==> Ptr(f, i, s) == 0) <==> f.inodes[i].addrs[NDIRECT] == 0
  {
    if Ptr(f, i, Root) == 0 {
      forall s | ValidSlot(s) && !Shallow(s) ensures Ptr(f, i, s) == 0 {
        if Ptr(f, i, s) != 0 {
          BelowRoot(f, i, s);
        }
      }
    } else {
      assert ValidSlot(Root) && !IsLeaf(Root) && LeadsOn(f, i, Root);
      var k :| 0 <= k < NINDIRECT && ValidSlot(Child(Root, k)) && Ptr(f, i, Child(Root, k)) != 0;
      assert !IsLeaf(Child(Root, k)) && LeadsOn(f, i, Child(Root, k));
      var l :| 0 <= l < NINDIRECT && ValidSlot(Child(Child(Root, k), l)) && Ptr(f, i, Child(Child(Root, k), l)) != 0;
      assert !Shallow(Child(Child(Root, k), l));
    }
  }

  /** itrunc part way: the blocks in the slots S of inode i are free again, and nothing but
      the bitmap and inode i has changed since f. */
  ghost predicate Truncating(v: Volume, f: Fs, owner: map<nat, Owner>, used: set<nat>, i: nat, S: set<Slot>)
    reads v
  {
    && Consistent(v.sb, f, owner, used) && i < |f.inodes|
    && v.used == used - InSlots(owner, i, S)
    && BitsAre(v.sb, v.blocks, v.used) && v.Told()
    && |v.blocks| == |f.blocks| && (forall b :: v.sb.lo <= b < |f.blocks| ==> v.blocks[b] == f.blocks[b])
    && |v.inodes| == |f.inodes| && (forall j :: 0 <= j < |f.inodes| && j != i ==> v.inodes[j] == f.inodes[j])
  }

  /** bfree of the block in one more slot; it is never already free. */
  method FreeSlot(v: Volume, i: nat, ghost s: Slot, a: nat, ghost f: Fs, ghost owner: map<nat, Owner>, ghost used: set<nat>, ghost S: set<Slot>)
    requires Truncating(v, f, owner, used, i, S) && ValidSlot(s) && s !in S && a == Ptr(f, i, s) != 0
    modifies v`blocks, v`used, v`logged, v`calls
    ensures Truncating(v, f, owner, used, i, S + {s})
  {
    InSlotsAdd(f, owner, i, S, s);
    assert a in owner;
    BBlockBound(v.sb, a);
    var ok := v.Bfree(a);
    assert ok;
  }

  ghost function DirectSlots(n: nat): (S: set<Slot>)
    ensures forall s :: s in S <==> s.Direct? && s.i < n
  {
    set k: nat | k < n :: Direct(k)
  }

  ghost function FirstLevel(n: nat): (S: set<Slot>)
    ensures forall s :: s in S <==> s.Child? && s.parent == Root && s.k < n
  {
    set k: nat | k < n :: Child(Root, k)
  }

  /** The first k direct addresses are 0 and their blocks free; the others are as they were. */
  ghost predicate DirectsFreed(v: Volume, f: Fs, owner: map<nat, Owner>, used: set<nat>, i: nat, k: nat)
    reads v
  {
    && Truncating(v, f, owner, used, i, DirectSlots(k)) && k <= NDIRECT
    && v.inodes[i].addrs == Cleared(f.inodes[i].addrs, k)
  }

  function Cleared(addrs: Addrs, k: nat): (r: Addrs)
    requires k <= NDIRECT
    ensures forall j :: 0 <= j <= NDIRECT ==> r[j] == if j < k then 0 else addrs[j]
  {
    seq(NDIRECT + 1, j requires 0 <= j <= NDIRECT => if j < k then 0 else addrs[j])
  }

  /** One turn of the first loop of itrunc. */
  method FreeOneDirect(v: Volume, i: nat, k: nat, ghost f: Fs, ghost owner: map<nat, Owner>, ghost used: set<nat>)
    requires DirectsFreed(v, f, owner, used, i, k) && k < NDIRECT
    modifies v`blocks, v`used, v`logged, v`calls, v`inodes
    ensures DirectsFreed(v, f, owner, used, i, k + 1)
  {
    var a: nat := v.inodes[i].addrs[k];
    InSlotsAdd(f, owner, i, DirectSlots(k), Direct(k));
    assert DirectSlots(k + 1) == DirectSlots(k) + {Direct(k)};
    assert Cleared(f.inodes[i].addrs, k + 1) == Cleared(f.inodes[i].addrs, k)[k := 0];
    if a != 0 {
      FreeSlot(v, i, Direct(k), a, f, owner, used, DirectSlots(k));
      v.inodes := v.inodes[i := Inode(v.inodes[i].size, v.inodes[i].addrs[k := 0])];
    }
  }

  /** The first loop of itrunc. */
  method FreeDirect(v: Volume, i: nat)
    requires v.Valid() && i < |v.inodes|
    modifies v`blocks, v`used, v`logged, v`calls, v`inodes
    ensures DirectsFreed(v, old(v.Now()), v.owner, old(v.used), i, NDIRECT)
  {
    ghost var f, owner, used := v.Now(), v.owner, v.used;
    assert Cleared(f.inodes[i].addrs, 0) == f.inodes[i].addrs;
    for k := 0 to NDIRECT
      invariant DirectsFreed(v, f, owner, used, i, k)
    {
      FreeOneDirect(v, i, k, f, owner, used);
    }
  }

  /** The second half of itrunc: the entries of the first index block, then the block. */
  method FreeIndirect(v: Volume, i: nat, ghost f: Fs, ghost owner: map<nat, Owner>, ghost used: set<nat>)
    requires Truncating(v, f, owner, used, i, DirectSlots(NDIRECT)) && Ptr(f, i, Root) == v.inodes[i].addrs[NDIRECT]
    modifies v`blocks, v`used, v`logged, v`calls, v`inodes
    ensures Truncating(v, f, owner, used, i, DirectSlots(NDIRECT) + FirstLevel(NINDIRECT) + {Root})
    ensures v.inodes[i].addrs == old(v.inodes)[i].addrs[NDIRECT := 0]
  {
    var root: nat := v.inodes[i].addrs[NDIRECT];
    if root != 0 {
      FreeEntries(v, i, root, f, owner, used);
      FreeSlot(v, i, Root, root, f, owner, used, DirectSlots(NDIRECT) + FirstLevel(NINDIRECT));
      v.inodes := v.inodes[i := Inode(v.inodes[i].size, v.inodes[i].addrs[NDIRECT := 0])];
    } else {
      NothingBelow(f, owner, i);
    }
  }

  lemma NothingBelow(f: Fs, owner: map<nat, Owner>, i: nat)
    requires Tree(f, owner) && i < |f.inodes| && Ptr(f, i, Root) == 0
    ensures InSlots(owner, i, DirectSlots(NDIRECT) + FirstLevel(NINDIRECT) + {Root}) == InSlots(owner, i, DirectSlots(NDIRECT))
  {
    forall b | b in owner && owner[b].inum == i
      ensures !owner[b].slot.Root? && !(owner[b].slot.Child? && owner[b].slot.parent.Root?)
    {
      assert Ptr(f, i, owner[b].slot) == b;
    }
  }

  method FreeEntries(v: Volume, i: nat, root: nat, ghost f: Fs, ghost owner: map<nat, Owner>, ghost used: set<nat>)
    requires Truncating(v, f, owner, used, i, DirectSlots(NDIRECT)) && root == Ptr(f, i, Root) != 0
    modifies v`blocks, v`used, v`logged, v`calls
    ensures Truncating(v, f, owner, used, i, DirectSlots(NDIRECT) + FirstLevel(NINDIRECT))
  {
    ghost var D := DirectSlots(NDIRECT);
    var j := 0;
    assert D + FirstLevel(0) == D;
    while j < NINDIRECT
      invariant 0 <= j <= NINDIRECT
      invariant Truncating(v, f, owner, used, i, D + FirstLevel(j))
    {
      assert root in owner;
      var a: nat := GetWord(v.blocks[root], j);
      assert a == Ptr(f, i, Child(Root, j));
      InSlotsAdd(f, owner, i, D + FirstLevel(j), Child(Root, j));
      assert D + FirstLevel(j + 1) == D + FirstLevel(j) + {Child(Root, j)};
      if a != 0 {
        FreeSlot(v, i, Child(Root, j), a, f, owner, used, D + FirstLevel(j));
      }
      j := j + 1;
    }
  }

  /** itrunc (fs.c): frees each block in a shallow slot of its own inode, once, and nothing
      else; bfree never panics; every other file keeps its contents, and every tree its shape. */
  method Itrunc(v: Volume, i: nat)
    requires v.Valid() && i < |v.inodes|
    modifies v
    ensures v.Valid()
    ensures v.used == old(v.used) - Freed(old(v.owner), i) && v.owner == Disowned(old(v.owner), i)
    ensures forall b :: b in v.used <==> b in old(v.used) && !AtHand(old(v.Now()), i, b)
    ensures v.inodes == Emptied(old(v.Now()), i).inodes
    ensures Contents(v.Now(), i) == [] && forall k :: 0 <= k <= NDIRECT ==> v.inodes[i].addrs[k] == 0
    ensures |v.blocks| == |old(v.blocks)| && forall b :: v.sb.lo <= b < |v.blocks| ==> v.blocks[b] == old(v.blocks)[b]
    ensures forall j :: 0 <= j < |v.inodes| && j != i ==> Contents(v.Now(), j) == Contents(old(v.Now()), j)
    ensures forall j :: 0 <= j < |v.inodes| && (j == i || Branching(old(v.Now()), j)) ==> Branching(v.Now(), j)
  {
    ghost var f, owner, used := v.Now(), v.owner, v.used;
    FreeDirect(v, i);
    FreeIndirect(v, i, f, owner, used);
    v.inodes := v.inodes[i := Inode(0, v.inodes[i].addrs)];
    assert v.inodes[i].addrs == Emptied(f, i).inodes[i].addrs;
    assert v.inodes == Emptied(f, i).inodes;
    FreedIsShallow(f, owner, i);
    forall b: nat ensures b in Freed(owner, i) <==> AtHand(f, i, b) { FreedIs(f, owner, i, b); }
    EmptiedConsistent(v.sb, f, v.Now(), owner, used, i, v.used);
    v.owner := Disowned(owner, i);
    forall j | 0 <= j < |v.inodes| && (j == i || Branching(f, j)) ensures Branching(v.Now(), j) {
      EmptiedBranching(f, v.Now(), owner, i, j);
    }
  }

  lemma EmptiedBranching(f: Fs, g: Fs, owner: map<nat, Owner>, i: nat, j: nat)
    requires Tree(f, owner) && i < |f.inodes| && j < |f.inodes| && (j == i || Branching(f, j))
    requires g.inodes == Emptied(f, i).inodes && |g.blocks| == |f.blocks|
    requires forall b :: b in owner ==> b < |f.blocks| && g.blocks[b] == f.blocks[b]
    ensures Branching(g, j)
  {
    forall t | ValidSlot(t) ensures Ptr(g, j, t) == (if j == i then 0 else Ptr(f, j, t)) { EmptiedPtr(f, g, owner, i, j, t); }
    forall t | ValidSlot(t) && !IsLeaf(t) && Ptr(g, j, t) != 0 ensures LeadsOn(g, j, t) {
      assert LeadsOn(f, j, t);
    }
  }

  /** The leak over the operations: a file that ever had a block beyond the direct ones loses
      blocks when it is truncated. */
  method MapThenTruncate(v: Volume, i: nat, bn: nat) returns (r: Option<nat>)
    requires v.Valid() && i < |v.inodes| && NoLeak(v.sb, v.owner, v.used) && NDIRECT <= bn
    modifies v
    ensures v.Valid()
    ensures r.Some? ==> !NoLeak(v.sb, v.owner, v.used)
    ensures r.None? <==> bn >= MAXBLOCKS || v.sb.size < |old(v.used)| + EmptyOn(old(v.Now()), i, SlotOf(bn))
  {
    r := v.Bmap(i, bn);
    if r.Some? {
      TruncateLeaksIff(v.sb, v.Now(), v.owner, v.used, i);
      assert !Shallow(SlotOf(bn));
      Itrunc(v, i);
    }
  }

  lemma FreedIsShallow(f: Fs, owner: map<nat, Owner>, i: nat)
    requires Tree(f, owner)
    ensures InSlots(owner, i, DirectSlots(NDIRECT) + FirstLevel(NINDIRECT) + {Root}) == Freed(owner, i)
  {
  }
}
