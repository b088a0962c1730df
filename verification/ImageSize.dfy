/** How many blocks a file takes when it is written from its first byte on: its data blocks, and
    the index blocks of the three levels above them. */
module ImageSize {
  import opened Blocks
  import opened FileIndex
  import opened Volumes

  function Ceiling(n: nat, d: nat): (q: nat)
    requires d > 0
  {
    (n + d - 1) / d
  }

  const LEVEL2: nat := NINDIRECT                 // data blocks below a second-level index block
  const LEVEL1: nat := NINDIRECT * NINDIRECT     // and below a first-level one

  /** The data blocks of n bytes. */
  function DataBlocks(n: nat): (d: nat)
  {
    Ceiling(n, BSIZE)
  }

  /** All blocks of a file of d data blocks. */
  function AllBlocks(d: nat): (n: nat)
  {
    if d <= NDIRECT then d
    else d + 1 + Ceiling(d - NDIRECT, LEVEL1) + Ceiling(d - NDIRECT, LEVEL2)
  }

  /** All blocks of a file of n bytes. */
  function Need(n: nat): (b: nat)
  {
    AllBlocks(DataBlocks(n))
  }

  /** The first data block that needs slot s. */
  function Start(s: Slot): (n: nat)
    requires ValidSlot(s)
  {
    match s
    case Direct(k) => k
    case Root => NDIRECT
    case Child(Root, k3) => NDIRECT + k3 * LEVEL1
    case Child(Child(Root, k3), k2) => NDIRECT + k3 * LEVEL1 + k2 * LEVEL2
    case Child(Child(Child(p, k3), k2), k1) => NDIRECT + k3 * LEVEL1 + k2 * LEVEL2 + k1
    case Child(Child(Direct(_), _), _) => 0
    case Child(Direct(_), _) => 0
  }

  /** Exactly the slots the first d data blocks need are in use. */
  ghost predicate FilledTo(f: Fs, i: nat, d: nat)
    requires i < |f.inodes|
  {
    forall s :: ValidSlot(s) ==> (Ptr(f, i, s) != 0 <==> Start(s) < d)
  }

  /** Block bn of the tree, by its three indices. */
  lemma {:induction false} Indices(bn: nat) returns (k3: nat, k2: nat, k1: nat)
    requires NDIRECT <= bn < MAXBLOCKS
    ensures k3 < NINDIRECT && k2 < NINDIRECT && k1 < NINDIRECT
    ensures bn == NDIRECT + k3 * LEVEL1 + k2 * LEVEL2 + k1 && SlotOf(bn) == Leaf(k3, k2, k1)
  {
    assert NINDIRECT == 128 && LEVEL2 == 128 && LEVEL1 == 16384;
    var b := bn - NDIRECT;
    var q := b / NINDIRECT;
    k1, k2, k3 := b % NINDIRECT, q % NINDIRECT, q / NINDIRECT;
    assert b == q * NINDIRECT + k1 && q == k3 * NINDIRECT + k2;
    assert k3 < NINDIRECT;
    TreeSlot(bn, b, k3, k2, k1);
  }

  /** The slots above a data block start no later than it. */
  lemma {:induction false} PathStarts(bn: nat, s: Slot)
    requires bn < MAXBLOCKS && OnPath(s, SlotOf(bn))
    ensures ValidSlot(s) && Start(s) <= bn
  {
    if bn >= NDIRECT {
      var k3, k2, k1 := Indices(bn);
      var s1 := Child(Root, k3);
      var s2 := Child(s1, k2);
      var s3 := Child(s2, k1);
      TreeSlots(k3, k2, k1);
      assert SlotOf(bn) == s3;
      assert s == s3 || s == s2 || s == s1 || s == Root by {
        assert OnPath(s, s3) == (s == s3 || OnPath(s, s2));
        assert OnPath(s, s2) == (s == s2 || OnPath(s, s1));
        assert OnPath(s, s1) == (s == s1 || OnPath(s, Root));
      }
    }
  }

  /** A slot is on the path to the first data block that needs it. */
  lemma {:induction false} StartsHere(s: Slot)
    requires ValidSlot(s)
    ensures Start(s) < MAXBLOCKS && OnPath(s, SlotOf(Start(s)))
  {
    match s
    case Direct(_) =>
    case Root => StartOfTree(0, 0, 0);
    case Child(Root, k3) => StartOfTree(k3, 0, 0);
    case Child(Child(Root, k3), k2) => StartOfTree(k3, k2, 0);
    case Child(Child(Child(p, k3), k2), k1) =>
      TopIsRoot(p, k3, k2, k1);
      StartOfTree(k3, k2, k1);
    case Child(Child(Direct(_), _), _) =>
    case Child(Direct(_), _) =>
  }

  lemma {:induction false} TopIsRoot(p: Slot, k3: nat, k2: nat, k1: nat)
    requires ValidSlot(Child(Child(Child(p, k3), k2), k1))
    ensures p == Root && k3 < NINDIRECT && k2 < NINDIRECT && k1 < NINDIRECT
  {
    var s1 := Child(p, k3);
    var s2 := Child(s1, k2);
    assert ValidSlot(Child(s2, k1)) == (k1 < NINDIRECT && ValidSlot(s2) && Depth(s2) < LEVELS);
    assert ValidSlot(s2) == (k2 < NINDIRECT && ValidSlot(s1) && Depth(s1) < LEVELS);
    assert ValidSlot(s1) == (k3 < NINDIRECT && ValidSlot(p) && Depth(p) < LEVELS);
    assert Depth(s2) == Depth(s1) + 1 && Depth(s1) == Depth(p) + 1;
  }

  lemma {:induction false} StartOfTree(k3: nat, k2: nat, k1: nat)
    requires k3 < NINDIRECT && k2 < NINDIRECT && k1 < NINDIRECT
    ensures var bn := NDIRECT + k3 * LEVEL1 + k2 * LEVEL2 + k1;
            && bn < MAXBLOCKS && SlotOf(bn) == Leaf(k3, k2, k1)
            && OnPath(Root, SlotOf(bn)) && OnPath(Child(Root, k3), SlotOf(bn)) && OnPath(Child(Child(Root, k3), k2), SlotOf(bn))
  {
    assert NINDIRECT == 128 && LEVEL2 == 128 && LEVEL1 == 16384;
    var b := k3 * LEVEL1 + k2 * LEVEL2 + k1;
    assert b / NINDIRECT == k3 * NINDIRECT + k2 && b % NINDIRECT == k1;
    assert (k3 * NINDIRECT + k2) / NINDIRECT == k3 && (k3 * NINDIRECT + k2) % NINDIRECT == k2;
    TreeSlot(NDIRECT + b, b, k3, k2, k1);
    var s := Child(Child(Child(Root, k3), k2), k1);
    assert OnPath(s.parent, s) && OnPath(s.parent.parent, s.parent) && OnPath(Root, s.parent.parent);
  }

  // ---- counting -----------------------------------------------------------------------------------

  lemma {:induction false} CeilingStep(n: nat, d: nat)
    requires d > 0
    ensures Ceiling(n + 1, d) == Ceiling(n, d) + (if n % d == 0 then 1 else 0)
  {
    var q, r := n / d, n % d;
    assert n == q * d + r;
    CeilingIs(q, r, d);
    if r == d - 1 {
      assert n + 1 == (q + 1) * d;
      CeilingIs(q + 1, 0, d);
    } else {
      CeilingIs(q, r + 1, d);
    }
  }

  lemma {:induction false} CeilingIs(q: nat, r: nat, d: nat)
    requires r < d
    ensures Ceiling(q * d + r, d) == if r == 0 then q else q + 1
  {
    var n := q * d + r;
    if r == 0 {
      assert n + d - 1 == q * d + (d - 1);
      DivIs(q, d - 1, d);
    } else {
      assert n + d - 1 == (q + 1) * d + (r - 1);
      DivIs(q + 1, r - 1, d);
    }
  }

  lemma {:induction false} DivIs(q: nat, r: nat, d: nat)
    requires r < d
    ensures (q * d + r) / d == q && (q * d + r) % d == r
  {
    var e: int, t: int := (q * d + r) / d, (q * d + r) % d;
    assert e * d + t == q * d + r;
    SameQuotient(e - q, d, r - t);
  }

  lemma SameQuotient(x: int, d: int, y: int)
    requires x * d == y && -d < y < d
    ensures x == 0
  {
    assert x >= 1 ==> (x - 1) * d >= 0;
    assert x <= -1 ==> (-1 - x) * d >= 0;
  }

  /** Writing one data block more takes a block for each empty slot on its path. */
  lemma {:induction false} NextBlockTakes(f: Fs, i: nat, d: nat)
    requires i < |f.inodes| && FilledTo(f, i, d) && d < MAXBLOCKS
    ensures AllBlocks(d + 1) == AllBlocks(d) + EmptyOn(f, i, SlotOf(d))
  {
    if d >= NDIRECT {
      var k3, k2, k1 := Indices(d);
      var s1 := Child(Root, k3);
      var s2 := Child(s1, k2);
      var s3 := Child(s2, k1);
      TreeSlots(k3, k2, k1);
      assert SlotOf(d) == s3;
      assert Start(s3) == d && Start(s2) == d - k1 && Start(s1) == d - k1 - k2 * LEVEL2;
      EmptyPath(f, i, k3, k2, k1);
      assert Ptr(f, i, s3) == 0;
      assert Ptr(f, i, s2) == 0 <==> k1 == 0;
      assert Ptr(f, i, s1) == 0 <==> k1 == 0 && k2 == 0;
      assert Ptr(f, i, Root) == 0 <==> d == NDIRECT;
      AllBlocksNext(d, k3, k2, k1);
    }
  }

  lemma {:induction false} AllBlocksNext(d: nat, k3: nat, k2: nat, k1: nat)
    requires k3 < NINDIRECT && k2 < NINDIRECT && k1 < NINDIRECT
    requires d == NDIRECT + k3 * LEVEL1 + k2 * LEVEL2 + k1
    ensures AllBlocks(d + 1) == AllBlocks(d) + 1 + (if k1 == 0 then 1 else 0) + (if k1 == 0 && k2 == 0 then 1 else 0)
                                + (if d == NDIRECT then 1 else 0)
  {
    var b := d - NDIRECT;
    CeilingStep(b, LEVEL2);
    CeilingStep(b, LEVEL1);
    assert NINDIRECT == 128 && LEVEL2 == 128 && LEVEL1 == 16384;
    assert b == k3 * 16384 + k2 * 128 + k1;
    assert b == (k3 * 128 + k2) * 128 + k1;
    DivIs(k3 * NINDIRECT + k2, k1, LEVEL2);
    DivIs(k3, k2 * LEVEL2 + k1, LEVEL1);
    if b == 0 { assert Ceiling(0, LEVEL1) == 0 && Ceiling(0, LEVEL2) == 0; }
  }

  lemma {:induction false} EmptyPath(f: Fs, i: nat, k3: nat, k2: nat, k1: nat)
    requires i < |f.inodes| && k3 < NINDIRECT && k2 < NINDIRECT && k1 < NINDIRECT
    ensures ValidSlot(Child(Root, k3)) && ValidSlot(Child(Child(Root, k3), k2)) && ValidSlot(Child(Child(Child(Root, k3), k2), k1))
    ensures EmptyOn(f, i, Leaf(k3, k2, k1))
            == (if Ptr(f, i, Child(Child(Child(Root, k3), k2), k1)) == 0 then 1 else 0)
             + (if Ptr(f, i, Child(Child(Root, k3), k2)) == 0 then 1 else 0)
             + (if Ptr(f, i, Child(Root, k3)) == 0 then 1 else 0)
             + (if Ptr(f, i, Root) == 0 then 1 else 0)
  {
    var s1 := Child(Root, k3);
    var s2 := Child(s1, k2);
    var s3 := Child(s2, k1);
    TreeSlots(k3, k2, k1);
    assert EmptyOn(f, i, s1) == (if Ptr(f, i, s1) == 0 then 1 else 0) + EmptyOn(f, i, Root);
    assert EmptyOn(f, i, s2) == (if Ptr(f, i, s2) == 0 then 1 else 0) + EmptyOn(f, i, s1);
    assert EmptyOn(f, i, s3) == (if Ptr(f, i, s3) == 0 then 1 else 0) + EmptyOn(f, i, s2);
  }

  /** One that is there takes none. */
  lemma {:induction false} OldBlockTakesNone(f: Fs, i: nat, d: nat, bn: nat, s: Slot)
    requires i < |f.inodes| && FilledTo(f, i, d) && bn < d && bn < MAXBLOCKS && OnPath(s, SlotOf(bn))
    ensures ValidSlot(s) && EmptyOn(f, i, s) == 0
    decreases s
  {
    PathStarts(bn, s);
    if s.Child? {
      PathUp(s, SlotOf(bn));
      OldBlockTakesNone(f, i, d, bn, s.parent);
    }
  }

  /** Then the slots in use are again exactly those needed. */
  lemma {:induction false} FilledNext(f: Fs, g: Fs, i: nat, d: nat, bn: nat)
    requires i < |f.inodes| && FilledTo(f, i, d) && bn <= d && bn < MAXBLOCKS
    requires Extends(f, g) && OnlyPath(f, g, i, SlotOf(bn)) && Ptr(g, i, SlotOf(bn)) != 0
    ensures FilledTo(g, i, if bn == d then d + 1 else d)
  {
    var e := if bn == d then d + 1 else d;
    forall s | ValidSlot(s) ensures Ptr(g, i, s) != 0 <==> Start(s) < e {
      if Ptr(f, i, s) == 0 && Ptr(g, i, s) != 0 { PathStarts(bn, s); }
      if Start(s) == bn {
        StartsHere(s);
        InUseAbove(g, i, s, SlotOf(bn));
      }
    }
  }

  lemma {:induction false} AllBlocksGrow(c: nat, d: nat)
    requires c <= d
    ensures AllBlocks(c) <= AllBlocks(d)
  {
    if c > NDIRECT {
      CeilingGrow(c - NDIRECT, d - NDIRECT, LEVEL1);
      CeilingGrow(c - NDIRECT, d - NDIRECT, LEVEL2);
    }
  }

  lemma {:induction false} CeilingGrow(m: nat, n: nat, d: nat)
    requires m <= n && d > 0
    ensures Ceiling(m, d) <= Ceiling(n, d)
    decreases n
  {
    if m < n {
      CeilingStep(n - 1, d);
      CeilingGrow(m, n - 1, d);
    }
  }
}
