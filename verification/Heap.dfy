/** The user-level allocator of umalloc.c, after section 8.7 of The C Programming
    Language: a circular, address-ordered free list with coalescing.  Addresses count
    Header units. */
module Heap {
  import opened Sequences
  import opened Wrappers

  const HEADER: nat := 8              // sizeof(Header)
  const UINT: nat := 0x1_0000_0000

  /** nunits of malloc, in 32-bit arithmetic. */
  function Units(nbytes: nat): (n: nat)
    ensures n >= 1
  {
    (nbytes + HEADER - 1) % UINT / HEADER + 1
  }

  /** The rounding gives room for the header and the bytes, unless the sum wraps. */
  lemma UnitsSuffice(nbytes: nat)
    requires nbytes < UINT
    ensures (Units(nbytes) - 1) * HEADER >= nbytes <==> nbytes <= UINT - HEADER
  {
    if nbytes <= UINT - HEADER {
      assert nbytes + HEADER - 1 < UINT;
    } else {
      assert (nbytes + HEADER - 1) % UINT == nbytes + HEADER - 1 - UINT;
    }
  }

  /** How many units morecore counts for n units. */
  function Counted(n: nat): (nu: nat)
  {
    if n < 4096 then 4096 else n
  }

  /** What morecore passes to sbrk: nu * sizeof(Header) in 32 bits, read as an int. */
  function SbrkArgument(n: nat): (k: int)
  {
    var w := Counted(n) * HEADER % UINT;
    if w < UINT / 2 then w else w - UINT
  }

  /** sbrk is asked for as many bytes as morecore counts. */
  predicate AsksForIt(n: nat)
  {
    SbrkArgument(n) == Counted(n) * HEADER
  }

  /** How morecore ends: no memory, less than it counts, or the heap is larger. */
  datatype More = Refused | Short | Grown

  /** sbrk gave what morecore counts. */
  predicate Granted(n: nat, grant: Option<nat>)
  {
    grant.Some? && AsksForIt(n)
  }

  /** How malloc ends. */
  datatype Got = NoMemory | Wild | At(p: nat)

  /** sbrk is asked for as many bytes as morecore then counts, exactly up to 2^31 - 16 bytes and for
      the requests whose rounding has wrapped; it is asked for nothing at all for the largest, and
      for less than nothing in between. */
  lemma SbrkAsksForIt(nbytes: nat)
    requires nbytes < UINT
    ensures AsksForIt(Units(nbytes)) <==> nbytes <= UINT / 2 - 2 * HEADER || nbytes > UINT - HEADER
    ensures UINT / 2 - 2 * HEADER < nbytes <= UINT - 2 * HEADER ==> SbrkArgument(Units(nbytes)) < 0
    ensures UINT - 2 * HEADER < nbytes <= UINT - HEADER ==> SbrkArgument(Units(nbytes)) == 0
  {
    if nbytes <= UINT - HEADER {
      assert Units(nbytes) == (nbytes + HEADER - 1) / HEADER + 1;
    } else {
      assert Units(nbytes) == 1;
    }
  }

  /** The element after position i on the cycle. */
  function After(fl: seq<nat>, i: nat): (a: nat)
    requires i < |fl|
  {
    if i + 1 < |fl| then fl[i + 1] else fl[0]
  }

  /** The pointer at position i leads to the next position. */
  predicate Hop(ptr: map<nat, nat>, fl: seq<nat>, i: nat)
    requires i < |fl|
  {
    fl[i] in ptr && ptr[fl[i]] == After(fl, i)
  }

  ghost predicate Cycle(ptr: map<nat, nat>, fl: seq<nat>)
  {
    forall i {:trigger Hop(ptr, fl, i)} :: 0 <= i < |fl| ==> Hop(ptr, fl, i)
  }

  /** Address order; the gap after position t alone may be empty. */
  ghost predicate Ordered(size: map<nat, nat>, fl: seq<nat>, t: nat)
  {
    && (forall i :: 0 <= i < |fl| ==> fl[i] in size)
    && (forall i, j :: 0 <= i < j < |fl| ==> fl[i] + size[fl[i]] <= fl[j])
    && (forall i, j :: 0 <= i < j < |fl| && !(t >= 1 && i == t && j == t + 1) ==> fl[i] + size[fl[i]] < fl[j])
  }

  /** The free list from `base` on: one cycle in address order, no two blocks touching. */
  ghost predicate FreeList(base: nat, m: Store, fl: seq<nat>)
  {
    && |fl| >= 1 && fl[0] == base
    && Ordered(m.size, fl, |fl|) && Cycle(m.ptr, fl)
    && m.size[base] == 0
    && (forall i :: 1 <= i < |fl| ==> m.size[fl[i]] >= 1)
  }

  /** The header fields in memory. */
  datatype Store = Store(ptr: map<nat, nat>, size: map<nat, nat>)

  /** Block [a, a + size[a]) and block [b, b + size[b]) share no unit. */
  ghost predicate Apart(size: map<nat, nat>, a: nat, b: nat)
  {
    a in size && b in size && (a + size[a] <= b || b + size[b] <= a)
  }

  /** The blocks in the hands of the program. */
  ghost predicate Allocated(base: nat, size: map<nat, nat>, fl: seq<nat>, alloc: seq<nat>)
  {
    && (forall k :: 0 <= k < |alloc| ==> alloc[k] in size && size[alloc[k]] >= 1 && base < alloc[k])
    && (forall k, l :: 0 <= k < l < |alloc| ==> Apart(size, alloc[k], alloc[l]))
    && (forall k, i :: 0 <= k < |alloc| && 1 <= i < |fl| ==> Apart(size, alloc[k], fl[i]))
  }

  ghost predicate Below(size: map<nat, nat>, blocks: seq<nat>, brk: nat)
  {
    forall k :: 0 <= k < |blocks| ==> blocks[k] in size && blocks[k] + size[blocks[k]] <= brk
  }

  /** The units in a list of blocks. */
  ghost function Sum(size: map<nat, nat>, blocks: seq<nat>): (n: nat)
    requires forall k :: 0 <= k < |blocks| ==> blocks[k] in size
  {
    if blocks == [] then 0 else Sum(size, blocks[..|blocks| - 1]) + size[blocks[|blocks| - 1]]
  }

  lemma {:induction false} SumFrame(s: map<nat, nat>, t: map<nat, nat>, blocks: seq<nat>)
    requires forall k :: 0 <= k < |blocks| ==> blocks[k] in s && blocks[k] in t && s[blocks[k]] == t[blocks[k]]
    ensures Sum(s, blocks) == Sum(t, blocks)
    decreases |blocks|
  {
    if blocks != [] {
      SumFrame(s, t, blocks[..|blocks| - 1]);
    }
  }

  lemma {:induction false} SumSplit(s: map<nat, nat>, x: seq<nat>, y: seq<nat>)
    requires forall k :: 0 <= k < |x| ==> x[k] in s
    requires forall k :: 0 <= k < |y| ==> y[k] in s
    ensures forall k :: 0 <= k < |x + y| ==> (x + y)[k] in s
    ensures Sum(s, x + y) == Sum(s, x) + Sum(s, y)
    decreases |y|
  {
    if y == [] {
      assert x + y == x;
    } else {
      var m := |y| - 1;
      assert (x + y)[..|x + y| - 1] == x + y[..m];
      SumSplit(s, x, y[..m]);
    }
  }

  /** Taking out one block takes out its units. */
  lemma SumRemove(s: map<nat, nat>, blocks: seq<nat>, i: nat)
    requires i < |blocks| && forall k :: 0 <= k < |blocks| ==> blocks[k] in s
    ensures forall k :: 0 <= k < |Cut(blocks, i)| ==> Cut(blocks, i)[k] in s
    ensures Sum(s, blocks) == Sum(s, Cut(blocks, i)) + s[blocks[i]]
  {
    assert blocks == blocks[..i] + ([blocks[i]] + blocks[i + 1..]);
    SumSplit(s, [blocks[i]], blocks[i + 1..]);
    SumSplit(s, blocks[..i], [blocks[i]] + blocks[i + 1..]);
    SumSplit(s, blocks[..i], blocks[i + 1..]);
    assert [blocks[i]][..0] == [];
    assert Sum(s, [blocks[i]]) == s[blocks[i]];
  }

  function Insert(blocks: seq<nat>, i: nat, b: nat): (r: seq<nat>)
    requires i <= |blocks|
  {
    blocks[..i] + [b] + blocks[i..]
  }

  lemma SumInsert(s: map<nat, nat>, blocks: seq<nat>, i: nat, b: nat)
    requires i <= |blocks| && b in s && forall k :: 0 <= k < |blocks| ==> blocks[k] in s
    ensures forall k :: 0 <= k < |Insert(blocks, i, b)| ==> Insert(blocks, i, b)[k] in s
    ensures Sum(s, Insert(blocks, i, b)) == Sum(s, blocks) + s[b]
  {
    var r := Insert(blocks, i, b);
    assert Cut(r, i) == blocks;
    SumRemove(s, r, i);
  }

  /** Changing one block's size changes the sum by as much. */
  lemma SumResize(s: map<nat, nat>, t: map<nat, nat>, blocks: seq<nat>, i: nat, b: nat, n: nat)
    requires i < |blocks| && b == blocks[i] && t == s[b := n] && forall k :: 0 <= k < |blocks| ==> blocks[k] in s
    requires forall j, k :: 0 <= j < k < |blocks| ==> blocks[j] != blocks[k]
    ensures Sum(t, blocks) == Sum(s, blocks) - s[b] + n
  {
    SumRemove(s, blocks, i);
    SumRemove(t, blocks, i);
    SumFrame(s, t, Cut(blocks, i));
  }

  // ---- free: the lists -----------------------------------------------------------

  lemma OrderedDistinct(size: map<nat, nat>, fl: seq<nat>, t: nat)
    requires Ordered(size, fl, t) && (t < |fl| ==> size[fl[t]] >= 1)
    ensures forall x, y :: 0 <= x < y < |fl| ==> fl[x] != fl[y]
  {
    forall x, y | 0 <= x < y < |fl| ensures fl[x] != fl[y] {
      assert fl[x] + size[fl[x]] <= fl[y];
      if x != t { assert fl[x] + size[fl[x]] < fl[y]; }
    }
  }

  /** bp belongs after position j of the list, and fits there. */
  ghost predicate Between(size: map<nat, nat>, fl: seq<nat>, j: nat, bp: nat)
  {
    && Ordered(size, fl, |fl|) && j < |fl| && bp in size && bp !in fl && size[bp] >= 1
    && fl[j] + size[fl[j]] <= bp && (j == 0 ==> fl[j] + size[fl[j]] < bp) && (j >= 1 ==> size[fl[j]] >= 1)
    && (forall i :: 0 <= i < j ==> fl[i] + size[fl[i]] < bp)
    && (forall i :: j + 2 <= i < |fl| ==> bp + size[bp] < fl[i])
    && (j + 1 < |fl| ==> bp + size[bp] <= fl[j + 1])
  }

  /** 1 if bp touches the block after position j. */
  ghost function Touch(size: map<nat, nat>, fl: seq<nat>, j: nat, bp: nat): (d: nat)
    requires bp in size
    ensures d == 1 ==> j + 1 < |fl|
    ensures d <= 1
  {
    if j + 1 < |fl| && bp + size[bp] == fl[j + 1] then 1 else 0
  }

  /** fl with the blocks j+1 .. j+d replaced by bp. */
  ghost function Spliced(fl: seq<nat>, j: nat, d: nat, bp: nat): (r: seq<nat>)
    requires j + 1 + d <= |fl|
    ensures |r| == |fl| + 1 - d
    ensures forall i {:trigger r[i]} :: 0 <= i < |r| ==> r[i] == (if i <= j then fl[i] else if i == j + 1 then bp else fl[i - 1 + d])
  {
    fl[..j + 1] + [bp] + fl[j + 1 + d..]
  }

  /** The list with bp in it, in place of the block it touches. */
  ghost function UpList(size: map<nat, nat>, fl: seq<nat>, j: nat, bp: nat): (r: seq<nat>)
    requires bp in size && j < |fl|
  {
    Spliced(fl, j, Touch(size, fl, j, bp), bp)
  }

  /** The sizes once bp has absorbed the block it touches. */
  ghost function UpSize(size: map<nat, nat>, fl: seq<nat>, j: nat, bp: nat): (r: map<nat, nat>)
    requires bp in size && forall i :: 0 <= i < |fl| ==> fl[i] in size
  {
    if Touch(size, fl, j, bp) == 1 then size[bp := size[bp] + size[fl[j + 1]]] else size
  }

  lemma UpOrder(size: map<nat, nat>, fl: seq<nat>, j: nat, bp: nat)
    requires Between(size, fl, j, bp)
    ensures Ordered(UpSize(size, fl, j, bp), UpList(size, fl, j, bp), j)
    ensures UpList(size, fl, j, bp)[j] == fl[j] && UpList(size, fl, j, bp)[j + 1] == bp
    ensures UpSize(size, fl, j, bp)[fl[j]] == size[fl[j]]
  {
    SplicedOrder(size, UpSize(size, fl, j, bp), fl, j, Touch(size, fl, j, bp), bp);
  }

  /** Where entry i of the spliced list comes from, unless it is bp. */
  function Source(j: nat, d: nat, i: nat): (o: nat)
    requires i != j + 1
  {
    if i <= j then i else i - 1 + d
  }

  lemma {:induction false} SplicedPair(size: map<nat, nat>, now: map<nat, nat>, fl: seq<nat>, j: nat, d: nat, bp: nat, x: nat, y: nat)
    requires Between(size, fl, j, bp) && d <= 1 && j + 1 + d <= |fl| && x < y < |fl| + 1 - d
    requires d == 1 ==> fl[j + 1] == bp + size[bp]
    requires d == 0 && j + 1 < |fl| ==> bp + size[bp] < fl[j + 1]
    requires now == if d == 1 then size[bp := size[bp] + size[fl[j + 1]]] else size
    ensures var r := Spliced(fl, j, d, bp);
            r[x] in now && r[x] + now[r[x]] <= r[y] && (!(j >= 1 && x == j && y == j + 1) ==> r[x] + now[r[x]] < r[y])
  {
    var r := Spliced(fl, j, d, bp);
    if x == j + 1 {
      if d == 1 { assert fl[j + 1] + size[fl[j + 1]] < fl[Source(j, d, y)]; }
    } else {
      var ox := Source(j, d, x);
      assert r[x] == fl[ox] && now[r[x]] == size[fl[ox]];
      if y != j + 1 { assert fl[ox] + size[fl[ox]] < fl[Source(j, d, y)]; }
    }
  }

  lemma {:induction false} SplicedOrder(size: map<nat, nat>, now: map<nat, nat>, fl: seq<nat>, j: nat, d: nat, bp: nat)
    requires Between(size, fl, j, bp) && d <= 1 && j + 1 + d <= |fl|
    requires d == 1 ==> fl[j + 1] == bp + size[bp]
    requires d == 0 && j + 1 < |fl| ==> bp + size[bp] < fl[j + 1]
    requires now == if d == 1 then size[bp := size[bp] + size[fl[j + 1]]] else size
    ensures Ordered(now, Spliced(fl, j, d, bp), j)
  {
    var r := Spliced(fl, j, d, bp);
    forall i | 0 <= i < |r| ensures r[i] in now { }
    forall x, y | 0 <= x < y < |r|
      ensures r[x] + now[r[x]] <= r[y] && (!(j >= 1 && x == j && y == j + 1) ==> r[x] + now[r[x]] < r[y])
    {
      SplicedPair(size, now, fl, j, d, bp, x, y);
    }
  }

  lemma UpSum(size: map<nat, nat>, fl: seq<nat>, j: nat, bp: nat)
    requires Between(size, fl, j, bp)
    ensures forall i :: 0 <= i < |UpList(size, fl, j, bp)| ==> UpList(size, fl, j, bp)[i] in UpSize(size, fl, j, bp)
    ensures Sum(UpSize(size, fl, j, bp), UpList(size, fl, j, bp)) == Sum(size, fl) + size[bp]
  {
    SplicedSum(size, UpSize(size, fl, j, bp), fl, j, Touch(size, fl, j, bp), bp);
  }

  lemma {:induction false} SplicedSum(size: map<nat, nat>, now: map<nat, nat>, fl: seq<nat>, j: nat, d: nat, bp: nat)
    requires j + 1 + d <= |fl| && d <= 1 && bp in size && bp !in fl && forall i :: 0 <= i < |fl| ==> fl[i] in size
    requires now == if d == 1 then size[bp := size[bp] + size[fl[j + 1]]] else size
    ensures forall i :: 0 <= i < |Spliced(fl, j, d, bp)| ==> Spliced(fl, j, d, bp)[i] in now
    ensures Sum(now, Spliced(fl, j, d, bp)) == Sum(size, fl) + size[bp]
  {
    var rest := RestSum(size, fl, j, d);
    assert Spliced(fl, j, d, bp) == Insert(rest, j + 1, bp);
    SumFrame(size, now, rest);
    SumInsert(now, rest, j + 1, bp);
  }

  /** The list without the block bp touches. */
  lemma {:induction false} RestSum(size: map<nat, nat>, fl: seq<nat>, j: nat, d: nat) returns (rest: seq<nat>)
    requires j + 1 + d <= |fl| && d <= 1 && forall i :: 0 <= i < |fl| ==> fl[i] in size
    ensures rest == fl[..j + 1] + fl[j + 1 + d..] && forall i :: 0 <= i < |rest| ==> rest[i] in fl && rest[i] in size
    ensures Sum(size, fl) == Sum(size, rest) + if d == 1 then size[fl[j + 1]] else 0
  {
    rest := fl[..j + 1] + fl[j + 1 + d..];
    if d == 1 {
      PartsCut(fl, j + 1);
      SumRemove(size, fl, j + 1);
    } else {
      assert rest == fl;
    }
  }

  lemma PartsCut(fl: seq<nat>, k: nat)
    requires k < |fl|
    ensures fl[..k] + fl[k + 1..] == Cut(fl, k)
  {
  }

  lemma UpHop(ptr: map<nat, nat>, size: map<nat, nat>, fl: seq<nat>, j: nat, bp: nat, i: nat)
    requires Between(size, fl, j, bp) && Cycle(ptr, fl) && i < |UpList(size, fl, j, bp)|
    ensures Hop(ptr[bp := After(fl, j + Touch(size, fl, j, bp))][fl[j] := bp], UpList(size, fl, j, bp), i)
  {
    OrderedDistinct(size, fl, |fl|);
    SplicedHop(ptr, fl, j, Touch(size, fl, j, bp), bp, i);
  }

  lemma SplicedHop(ptr: map<nat, nat>, fl: seq<nat>, j: nat, d: nat, bp: nat, i: nat)
    requires Cycle(ptr, fl) && j + 1 + d <= |fl| && bp !in fl && i < |fl| + 1 - d
    requires forall x, y :: 0 <= x < y < |fl| ==> fl[x] != fl[y]
    ensures Hop(ptr[bp := After(fl, j + d)][fl[j] := bp], Spliced(fl, j, d, bp), i)
  {
    var r := Spliced(fl, j, d, bp);
    if i < j {
      assert Hop(ptr, fl, i);
      assert r[i] == fl[i] && r[i + 1] == fl[i + 1];
    } else if i == j {
      assert r[i] == fl[j] && r[i + 1] == bp;
    } else if i == j + 1 {
      assert r[i] == bp;
      if i + 1 < |r| { assert r[i + 1] == fl[j + 1 + d]; }
    } else {
      assert Hop(ptr, fl, i - 1 + d);
      assert r[i] == fl[i - 1 + d];
      if i + 1 < |r| { assert r[i + 1] == fl[i + d]; }
    }
  }

  /** The sizes once fl[t] has absorbed fl[t + 1]. */
  ghost function DownSize(size: map<nat, nat>, p: nat, bp: nat): (r: map<nat, nat>)
    requires p in size && bp in size
  {
    size[p := size[p] + size[bp]]
  }

  /** The list without position t. */
  lemma CutAt(fl: seq<nat>, t: nat, i: nat)
    requires t < |fl| && i < |fl| - 1
    ensures Cut(fl, t)[i] == fl[if i < t then i else i + 1]
  {
  }

  lemma DownOrder(size: map<nat, nat>, fl: seq<nat>, t: nat)
    requires Ordered(size, fl, t) && 1 <= t && t + 1 < |fl| && size[fl[t]] >= 1 && fl[t] + size[fl[t]] == fl[t + 1]
    ensures Ordered(DownSize(size, fl[t], fl[t + 1]), Cut(fl, t + 1), |fl|)
  {
    var c, now := Cut(fl, t + 1), DownSize(size, fl[t], fl[t + 1]);
    OrderedDistinct(size, fl, t);
    forall i | 0 <= i < |c| ensures c[i] in now { CutAt(fl, t + 1, i); }
    forall x, y | 0 <= x < y < |c| ensures c[x] + now[c[x]] < c[y] {
      CutAt(fl, t + 1, x);
      CutAt(fl, t + 1, y);
      var ox := if x <= t then x else x + 1;
      var oy := if y <= t then y else y + 1;
      if x == t {
        assert fl[t + 1] + size[fl[t + 1]] < fl[oy];
      } else {
        assert fl[ox] + size[fl[ox]] < fl[oy];
      }
    }
  }

  lemma CutDistinct(fl: seq<nat>, t: nat)
    requires t < |fl| && forall x, y :: 0 <= x < y < |fl| ==> fl[x] != fl[y]
    ensures forall x, y :: 0 <= x < y < |Cut(fl, t)| ==> Cut(fl, t)[x] != Cut(fl, t)[y]
  {
    var c := Cut(fl, t);
    forall x, y | 0 <= x < y < |c| ensures c[x] != c[y] {
      CutAt(fl, t, x);
      CutAt(fl, t, y);
    }
  }

  lemma DownSum(size: map<nat, nat>, fl: seq<nat>, t: nat, p: nat, bp: nat)
    requires Ordered(size, fl, t) && t + 1 < |fl| && p == fl[t] && bp == fl[t + 1] && size[p] >= 1
    ensures var c := Cut(fl, t + 1); forall i :: 0 <= i < |c| ==> c[i] in DownSize(size, p, bp)
    ensures Sum(DownSize(size, p, bp), Cut(fl, t + 1)) == Sum(size, fl)
  {
    var c := Cut(fl, t + 1);
    SumRemove(size, fl, t + 1);
    OrderedDistinct(size, fl, t);
    CutAt(fl, t + 1, t);
    CutDistinct(fl, t + 1);
    SumResize(size, DownSize(size, p, bp), c, t, p, size[p] + size[bp]);
  }

  lemma DownHop(ptr: map<nat, nat>, fl: seq<nat>, t: nat, i: nat)
    requires Cycle(ptr, fl) && t + 1 < |fl| && i < |fl| - 1
    requires forall x, y :: 0 <= x < y < |fl| ==> fl[x] != fl[y]
    ensures Hop(ptr[fl[t] := After(fl, t + 1)], Cut(fl, t + 1), i)
  {
    var c := Cut(fl, t + 1);
    var o := if i <= t then i else i + 1;
    assert Hop(ptr, fl, o);
    CutAt(fl, t + 1, i);
    if i + 1 < |c| { CutAt(fl, t + 1, i + 1); }
  }

  // ---- free: the whole state --------------------------------------------------------

  /** Everything the allocator keeps true: the free list, the allocated blocks, nothing
      beyond the break, and every unit got from sbrk either free or allocated. */
  ghost predicate Ok(base: nat, m: Store, fl: seq<nat>, alloc: seq<nat>, brk: nat, total: nat)
  {
    && FreeList(base, m, fl)
    && Allocated(base, m.size, fl, alloc)
    && Below(m.size, fl, brk) && Below(m.size, alloc, brk)
    && Sum(m.size, fl) + Sum(m.size, alloc) == total
  }

  /** j is where a block at address b belongs on the list. */
  ghost predicate Place(fl: seq<nat>, j: nat, b: nat)
  {
    j < |fl| && fl[j] < b && (j + 1 < |fl| ==> b < fl[j + 1])
  }

  /** A block of the program lies between its neighbours on the list. */
  lemma PlaceBetween(base: nat, m: Store, fl: seq<nat>, alloc: seq<nat>, j: nat, k: nat)
    requires FreeList(base, m, fl) && Allocated(base, m.size, fl, alloc) && k < |alloc| && Place(fl, j, alloc[k])
    ensures Between(m.size, fl, j, alloc[k])
  {
    if j >= 1 {
      assert Apart(m.size, alloc[k], fl[j]);
    }
    if j + 1 < |fl| {
      assert Apart(m.size, alloc[k], fl[j + 1]);
    }
    forall i | 0 <= i < |fl| ensures fl[i] != alloc[k] {
      if i < j { assert fl[i] + m.size[fl[i]] < fl[j]; }
      if i > j + 1 { assert fl[j + 1] + m.size[fl[j + 1]] < fl[i]; }
    }
  }

  ghost predicate Down(size: map<nat, nat>, fl: seq<nat>, j: nat, bp: nat)
    requires j < |fl| && fl[j] in size
  {
    fl[j] + size[fl[j]] == bp
  }

  ghost function FreedSize(size: map<nat, nat>, fl: seq<nat>, j: nat, bp: nat): (r: map<nat, nat>)
    requires Between(size, fl, j, bp)
  {
    var s1 := UpSize(size, fl, j, bp);
    if Down(size, fl, j, bp) then DownSize(s1, fl[j], bp) else s1
  }

  ghost function FreedList(size: map<nat, nat>, fl: seq<nat>, j: nat, bp: nat): (r: seq<nat>)
    requires Between(size, fl, j, bp)
  {
    var up := UpList(size, fl, j, bp);
    if Down(size, fl, j, bp) then Cut(up, j + 1) else up
  }

  ghost function FreedPtr(m: Store, fl: seq<nat>, j: nat, bp: nat): (r: map<nat, nat>)
    requires Between(m.size, fl, j, bp)
  {
    var p1 := m.ptr[bp := After(fl, j + Touch(m.size, fl, j, bp))][fl[j] := bp];
    if Down(m.size, fl, j, bp) then p1[fl[j] := After(UpList(m.size, fl, j, bp), j + 1)] else p1
  }

  lemma FreedOrder(size: map<nat, nat>, fl: seq<nat>, j: nat, bp: nat)
    requires Between(size, fl, j, bp)
    ensures Ordered(FreedSize(size, fl, j, bp), FreedList(size, fl, j, bp), |FreedList(size, fl, j, bp)|)
    ensures forall i :: 0 <= i < |FreedList(size, fl, j, bp)| ==> FreedList(size, fl, j, bp)[i] in FreedSize(size, fl, j, bp)
    ensures Sum(FreedSize(size, fl, j, bp), FreedList(size, fl, j, bp)) == Sum(size, fl) + size[bp]
  {
    var up, s1 := UpList(size, fl, j, bp), UpSize(size, fl, j, bp);
    UpOrder(size, fl, j, bp);
    UpSum(size, fl, j, bp);
    if Down(size, fl, j, bp) {
      DownOrder(s1, up, j);
      DownSum(s1, up, j, fl[j], bp);
    }
  }

  lemma {:induction false} FreedCycle(m: Store, fl: seq<nat>, j: nat, bp: nat)
    requires Between(m.size, fl, j, bp) && Cycle(m.ptr, fl)
    ensures Cycle(FreedPtr(m, fl, j, bp), FreedList(m.size, fl, j, bp))
  {
    var up, p1 := UpCycle(m, fl, j, bp);
    if Down(m.size, fl, j, bp) {
      UpOrder(m.size, fl, j, bp);
      OrderedDistinct(UpSize(m.size, fl, j, bp), up, j);
      DownCycle(p1, up, j);
    }
  }

  lemma {:induction false} UpCycle(m: Store, fl: seq<nat>, j: nat, bp: nat) returns (up: seq<nat>, p1: map<nat, nat>)
    requires Between(m.size, fl, j, bp) && Cycle(m.ptr, fl)
    ensures up == UpList(m.size, fl, j, bp) && p1 == m.ptr[bp := After(fl, j + Touch(m.size, fl, j, bp))][fl[j] := bp]
    ensures Cycle(p1, up) && up[j] == fl[j]
  {
    up := UpList(m.size, fl, j, bp);
    p1 := m.ptr[bp := After(fl, j + Touch(m.size, fl, j, bp))][fl[j] := bp];
    UpOrder(m.size, fl, j, bp);
    forall i | 0 <= i < |up| ensures Hop(p1, up, i) { UpHop(m.ptr, m.size, fl, j, bp, i); }
  }

  lemma {:induction false} DownCycle(ptr: map<nat, nat>, fl: seq<nat>, t: nat)
    requires Cycle(ptr, fl) && t + 1 < |fl|
    requires forall x, y :: 0 <= x < y < |fl| ==> fl[x] != fl[y]
    ensures Cycle(ptr[fl[t] := After(fl, t + 1)], Cut(fl, t + 1))
  {
    var p2, c := ptr[fl[t] := After(fl, t + 1)], Cut(fl, t + 1);
    forall i | 0 <= i < |c| ensures Hop(p2, c, i) { DownHop(ptr, fl, t, i); }
  }

  /** Where an entry of the new list comes from: position o of the old one, or bp itself. */
  lemma FreedAt(size: map<nat, nat>, fl: seq<nat>, j: nat, bp: nat, i: nat) returns (o: int)
    requires Between(size, fl, j, bp) && i < |FreedList(size, fl, j, bp)|
    ensures i == 0 ==> o == 0
    ensures o >= 0 ==> o < |fl| && (i >= 1 ==> o >= 1) && FreedList(size, fl, j, bp)[i] == fl[o]
    ensures o >= 0 && o != j ==> fl[o] != fl[j]
    ensures o < 0 ==> FreedList(size, fl, j, bp)[i] == bp && !Down(size, fl, j, bp)
  {
    if Down(size, fl, j, bp) {
      var up := UpList(size, fl, j, bp);
      CutAt(up, j + 1, i);
      o := UpAt(size, fl, j, bp, if i > j then i + 1 else i);
    } else {
      o := UpAt(size, fl, j, bp, i);
    }
  }

  lemma UpAt(size: map<nat, nat>, fl: seq<nat>, j: nat, bp: nat, e: nat) returns (o: int)
    requires Between(size, fl, j, bp) && e < |UpList(size, fl, j, bp)|
    ensures e == 0 ==> o == 0
    ensures o >= 0 ==> o < |fl| && (e >= 1 ==> o >= 1) && UpList(size, fl, j, bp)[e] == fl[o]
    ensures o >= 0 && o != j ==> fl[o] != fl[j]
    ensures o < 0 <==> e == j + 1
    ensures o < 0 ==> UpList(size, fl, j, bp)[e] == bp
  {
    o := if e <= j then e else if e == j + 1 then -1 else e - 1 + Touch(size, fl, j, bp);
    OrderedDistinct(size, fl, |fl|);
  }

  /** Two touching blocks, each apart from a, make one block apart from a. */
  lemma ApartJoin(size: map<nat, nat>, now: map<nat, nat>, a: nat, x: nat, y: nat)
    requires Apart(size, a, x) && Apart(size, a, y) && y == x + size[x] && size[a] >= 1 && size[x] >= 1 && size[y] >= 1
    requires a in now && x in now && now[a] == size[a] && now[x] == size[x] + size[y]
    ensures Apart(now, a, x)
  {
  }

  /** A block apart from bp and from the block it absorbs stays apart from it. */
  lemma {:induction false} UpApart(size: map<nat, nat>, fl: seq<nat>, j: nat, bp: nat, a: nat)
    requires Between(size, fl, j, bp) && forall x :: 1 <= x < |fl| ==> size[fl[x]] >= 1
    requires a in size && size[a] >= 1 && a != bp && Apart(size, a, bp) && forall x :: 1 <= x < |fl| ==> Apart(size, a, fl[x])
    ensures var s := UpSize(size, fl, j, bp); a in s && s[a] == size[a] && Apart(s, a, bp)
    ensures var s := UpSize(size, fl, j, bp); forall x :: 0 <= x < |fl| ==> fl[x] in s && s[fl[x]] == size[fl[x]]
    ensures bp in UpSize(size, fl, j, bp) && UpSize(size, fl, j, bp)[bp] >= 1
  {
    if Touch(size, fl, j, bp) == 1 {
      assert Apart(size, a, fl[j + 1]);
      ApartJoin(size, UpSize(size, fl, j, bp), a, bp, fl[j + 1]);
    }
  }

  /** A block apart from bp and from every free block is apart from every block of the new list. */
  lemma {:induction false} FreedApart(size: map<nat, nat>, fl: seq<nat>, j: nat, bp: nat, a: nat, i: nat)
    requires Between(size, fl, j, bp) && 1 <= i < |FreedList(size, fl, j, bp)| && forall x :: 1 <= x < |fl| ==> size[fl[x]] >= 1
    requires a in size && size[a] >= 1 && a != bp && a != fl[j] && Apart(size, a, bp) && forall x :: 1 <= x < |fl| ==> Apart(size, a, fl[x])
    ensures a in FreedSize(size, fl, j, bp) && FreedSize(size, fl, j, bp)[a] == size[a]
    ensures Apart(FreedSize(size, fl, j, bp), a, FreedList(size, fl, j, bp)[i])
  {
    UpApart(size, fl, j, bp, a);
    var o := FreedAt(size, fl, j, bp, i);
    if o >= 0 {
      assert Apart(size, a, fl[o]);
      if o == j && Down(size, fl, j, bp) {
        ApartJoin(UpSize(size, fl, j, bp), FreedSize(size, fl, j, bp), a, fl[j], bp);
      }
    }
  }

  lemma OtherBlock(base: nat, m: Store, fl: seq<nat>, alloc: seq<nat>, j: nat, k: nat, l: nat)
    requires FreeList(base, m, fl) && Allocated(base, m.size, fl, alloc) && k < |alloc| && l < |alloc| && l != k && j < |fl|
    ensures alloc[l] != alloc[k] && alloc[l] != fl[j] && Apart(m.size, alloc[l], alloc[k])
  {
    if l < k { assert Apart(m.size, alloc[l], alloc[k]); } else { assert Apart(m.size, alloc[k], alloc[l]); }
    if j >= 1 { assert Apart(m.size, alloc[l], fl[j]); }
  }

  /** The other blocks of the program keep their sizes and stay apart from everything. */
  lemma FreedAllocated(base: nat, m: Store, fl: seq<nat>, alloc: seq<nat>, j: nat, k: nat)
    requires FreeList(base, m, fl) && Allocated(base, m.size, fl, alloc) && k < |alloc| && Between(m.size, fl, j, alloc[k])
    ensures Allocated(base, FreedSize(m.size, fl, j, alloc[k]), FreedList(m.size, fl, j, alloc[k]), Cut(alloc, k))
    ensures var rest, size := Cut(alloc, k), FreedSize(m.size, fl, j, alloc[k]);
            forall l :: 0 <= l < |rest| ==>
              rest[l] == alloc[if l < k then l else l + 1] && rest[l] in m.size && rest[l] in size && size[rest[l]] == m.size[rest[l]]
  {
    var bp := alloc[k];
    var size, now, rest := FreedSize(m.size, fl, j, bp), FreedList(m.size, fl, j, bp), Cut(alloc, k);
    forall l | 0 <= l < |rest|
      ensures rest[l] == alloc[if l < k then l else l + 1]
      ensures rest[l] in m.size && rest[l] in size && size[rest[l]] == m.size[rest[l]] && m.size[rest[l]] >= 1 && base < rest[l]
    {
      CutAt(alloc, k, l);
      OtherBlock(base, m, fl, alloc, j, k, if l < k then l else l + 1);
    }
    forall x, y | 0 <= x < y < |rest| ensures Apart(size, rest[x], rest[y]) {
      assert Apart(m.size, alloc[if x < k then x else x + 1], alloc[if y < k then y else y + 1]);
    }
    forall l, i | 0 <= l < |rest| && 1 <= i < |now| ensures Apart(size, rest[l], now[i]) {
      var o := if l < k then l else l + 1;
      OtherBlock(base, m, fl, alloc, j, k, o);
      FreedApart(m.size, fl, j, bp, alloc[o], i);
    }
  }

  /** The sizes after free: of bp unless it was joined down, of the block it joined, of the others. */
  lemma FreedSizeAt(size: map<nat, nat>, fl: seq<nat>, j: nat, bp: nat, o: nat)
    requires Between(size, fl, j, bp) && o < |fl| && (o != j ==> fl[o] != fl[j])
    ensures var now, up := FreedSize(size, fl, j, bp), UpSize(size, fl, j, bp);
            && bp in up && up[bp] == size[bp] + (if Touch(size, fl, j, bp) == 1 then size[fl[j + 1]] else 0)
            && (!Down(size, fl, j, bp) ==> now == up)
            && fl[o] in now && now[fl[o]] == size[fl[o]] + (if o == j && Down(size, fl, j, bp) then up[bp] else 0)
  {
  }

  lemma FreedBelow(size: map<nat, nat>, fl: seq<nat>, brk: nat, j: nat, bp: nat, i: nat)
    requires Between(size, fl, j, bp) && Below(size, fl, brk) && bp + size[bp] <= brk && i < |FreedList(size, fl, j, bp)|
    ensures var now, x := FreedSize(size, fl, j, bp), FreedList(size, fl, j, bp)[i]; x in now && x + now[x] <= brk
  {
    var o := FreedAt(size, fl, j, bp, i);
    FreedSizeAt(size, fl, j, bp, if o >= 0 then o else j);
  }

  lemma FreedPositive(size: map<nat, nat>, fl: seq<nat>, j: nat, bp: nat, i: nat)
    requires Between(size, fl, j, bp) && i < |FreedList(size, fl, j, bp)| && forall x :: 1 <= x < |fl| ==> size[fl[x]] >= 1
    ensures var now, x := FreedSize(size, fl, j, bp), FreedList(size, fl, j, bp)[i];
            x in now && (i >= 1 ==> now[x] >= 1) && (i == 0 && size[fl[0]] == 0 ==> x == fl[0] && now[x] == 0)
  {
    var o := FreedAt(size, fl, j, bp, i);
    FreedSizeAt(size, fl, j, bp, if o >= 0 then o else j);
  }

  /** free keeps everything true. */
  lemma FreeKeepsOk(base: nat, m: Store, fl: seq<nat>, alloc: seq<nat>, brk: nat, total: nat, j: nat, k: nat)
    requires Ok(base, m, fl, alloc, brk, total) && k < |alloc| && Place(fl, j, alloc[k])
    ensures Between(m.size, fl, j, alloc[k])
    ensures Ok(base, Store(FreedPtr(m, fl, j, alloc[k]), FreedSize(m.size, fl, j, alloc[k])), FreedList(m.size, fl, j, alloc[k]), Cut(alloc, k), brk, total)
  {
    var bp := alloc[k];
    PlaceBetween(base, m, fl, alloc, j, k);
    var size, now, rest := FreedSize(m.size, fl, j, bp), FreedList(m.size, fl, j, bp), Cut(alloc, k);
    FreedOrder(m.size, fl, j, bp);
    FreedCycle(m, fl, j, bp);
    FreedAllocated(base, m, fl, alloc, j, k);
    forall i | 0 <= i < |now| ensures now[i] in size && now[i] + size[now[i]] <= brk && (i >= 1 ==> size[now[i]] >= 1) {
      FreedBelow(m.size, fl, brk, j, bp, i);
      FreedPositive(m.size, fl, j, bp, i);
    }
    FreedPositive(m.size, fl, j, bp, 0);
    SumRemove(m.size, alloc, k);
    SumFrame(m.size, size, rest);
  }

  // ---- malloc: the lists -------------------------------------------------------------

  /** Two blocks of the list share nothing. */
  lemma ListApart(base: nat, m: Store, fl: seq<nat>, i: nat, x: nat)
    requires FreeList(base, m, fl) && 1 <= i < |fl| && 1 <= x < |fl| && i != x
    ensures Apart(m.size, fl[i], fl[x])
  {
    if i < x { assert fl[i] + m.size[fl[i]] < fl[x]; } else { assert fl[x] + m.size[fl[x]] < fl[i]; }
  }

  lemma TakeFreeList(base: nat, m: Store, fl: seq<nat>, i: nat)
    requires FreeList(base, m, fl) && 1 <= i < |fl|
    ensures FreeList(base, Store(m.ptr[fl[i - 1] := After(fl, i)], m.size), Cut(fl, i))
    ensures var c := Cut(fl, i); forall x :: 0 <= x < |c| ==> c[x] == fl[if x < i then x else x + 1]
  {
    var c, ptr := Cut(fl, i), m.ptr[fl[i - 1] := After(fl, i)];
    OrderedDistinct(m.size, fl, |fl|);
    forall x | 0 <= x < |c| ensures Hop(ptr, c, x) { DownHop(m.ptr, fl, i - 1, x); }
    CutOrdered(m.size, fl, i);
  }

  lemma CutOrdered(size: map<nat, nat>, fl: seq<nat>, i: nat)
    requires Ordered(size, fl, |fl|) && 1 <= i < |fl|
    ensures Ordered(size, Cut(fl, i), |Cut(fl, i)|)
    ensures var c := Cut(fl, i); forall x :: 0 <= x < |c| ==> c[x] == fl[if x < i then x else x + 1]
  {
    var c := Cut(fl, i);
    forall x | 0 <= x < |c| ensures c[x] == fl[if x < i then x else x + 1] { CutAt(fl, i, x); }
    forall x, y | 0 <= x < y < |c| ensures c[x] + size[c[x]] < c[y] {
      var ox, oy := if x < i then x else x + 1, if y < i then y else y + 1;
      assert fl[ox] + size[fl[ox]] < fl[oy];
    }
  }

  lemma TakeAllocated(base: nat, m: Store, fl: seq<nat>, alloc: seq<nat>, i: nat)
    requires FreeList(base, m, fl) && Allocated(base, m.size, fl, alloc) && 1 <= i < |fl|
    ensures Allocated(base, m.size, Cut(fl, i), alloc + [fl[i]])
  {
    var c, more := Cut(fl, i), alloc + [fl[i]];
    assert base < fl[i] by { assert fl[0] + m.size[fl[0]] < fl[i]; }
    forall k, x | 0 <= k < |more| && 1 <= x < |c| ensures Apart(m.size, more[k], c[x]) {
      CutAt(fl, i, x);
      var o := if x < i then x else x + 1;
      if k == |alloc| { ListApart(base, m, fl, i, o); } else { assert Apart(m.size, alloc[k], fl[o]); }
    }
    forall k, l | 0 <= k < l < |more| ensures Apart(m.size, more[k], more[l]) {
      if l == |alloc| { assert Apart(m.size, alloc[k], fl[i]); } else { assert Apart(m.size, alloc[k], alloc[l]); }
    }
  }

  lemma {:induction false} TakeSums(size: map<nat, nat>, fl: seq<nat>, alloc: seq<nat>, i: nat)
    requires i < |fl| && (forall k :: 0 <= k < |fl| ==> fl[k] in size) && forall k :: 0 <= k < |alloc| ==> alloc[k] in size
    ensures (forall k :: 0 <= k < |Cut(fl, i)| ==> Cut(fl, i)[k] in size) && forall k :: 0 <= k < |alloc + [fl[i]]| ==> (alloc + [fl[i]])[k] in size
    ensures Sum(size, Cut(fl, i)) + Sum(size, alloc + [fl[i]]) == Sum(size, fl) + Sum(size, alloc)
  {
    var more := alloc + [fl[i]];
    SumRemove(size, fl, i);
    assert more[..|more| - 1] == alloc;
  }

  lemma {:induction false} TakeBelow(size: map<nat, nat>, fl: seq<nat>, alloc: seq<nat>, i: nat, brk: nat)
    requires i < |fl| && Below(size, fl, brk) && Below(size, alloc, brk)
    ensures Below(size, Cut(fl, i), brk) && Below(size, alloc + [fl[i]], brk)
  {
    var c := Cut(fl, i);
    forall k | 0 <= k < |c| ensures c[k] in size && c[k] + size[c[k]] <= brk { CutAt(fl, i, k); }
  }

  /** malloc, exact fit: the block leaves the list. */
  lemma {:induction false} TakeKeepsOk(base: nat, m: Store, fl: seq<nat>, alloc: seq<nat>, brk: nat, total: nat, i: nat)
    requires Ok(base, m, fl, alloc, brk, total) && 1 <= i < |fl|
    ensures Ok(base, Store(m.ptr[fl[i - 1] := After(fl, i)], m.size), Cut(fl, i), alloc + [fl[i]], brk, total)
  {
    TakeFreeList(base, m, fl, i);
    TakeAllocated(base, m, fl, alloc, i);
    TakeBelow(m.size, fl, alloc, i, brk);
    TakeSums(m.size, fl, alloc, i);
  }

  /** The pointer at position i is the one its predecessor takes over. */
  lemma {:induction false} NextIs(base: nat, m: Store, fl: seq<nat>, i: nat)
    requires FreeList(base, m, fl) && 1 <= i < |fl|
    ensures fl[i] in m.ptr && m.ptr[fl[i]] == After(fl, i) && fl[i - 1] in Cut(fl, i)
  {
    assert Hop(m.ptr, fl, i);
    CutAt(fl, i, i - 1);
    assert Cut(fl, i)[i - 1] == fl[i - 1];
  }

  /** The sizes after malloc has cut n units off the end of block p. */
  ghost function TailSize(size: map<nat, nat>, p: nat, n: nat): (r: map<nat, nat>)
    requires p in size && n < size[p]
  {
    size[p := size[p] - n][p + size[p] - n := n]
  }

  /** The cut-off tail is no block yet. */
  lemma TailIsNew(base: nat, m: Store, fl: seq<nat>, alloc: seq<nat>, i: nat, n: nat)
    requires FreeList(base, m, fl) && Allocated(base, m.size, fl, alloc) && 1 <= i < |fl| && 1 <= n < m.size[fl[i]]
    ensures var a := fl[i] + m.size[fl[i]] - n;
            && (forall x :: 0 <= x < |fl| ==> fl[x] != a)
            && (forall k :: 0 <= k < |alloc| ==> alloc[k] != a && alloc[k] != fl[i])
  {
    var a := fl[i] + m.size[fl[i]] - n;
    forall x | 0 <= x < |fl| ensures fl[x] != a {
      if x < i { assert fl[x] + m.size[fl[x]] < fl[i]; }
      if x > i { assert fl[i] + m.size[fl[i]] < fl[x]; }
    }
    forall k | 0 <= k < |alloc| ensures alloc[k] != a && alloc[k] != fl[i] {
      assert Apart(m.size, alloc[k], fl[i]);
    }
  }

  lemma TailFreeList(base: nat, m: Store, fl: seq<nat>, alloc: seq<nat>, i: nat, n: nat)
    requires FreeList(base, m, fl) && Allocated(base, m.size, fl, alloc) && 1 <= i < |fl| && 1 <= n < m.size[fl[i]]
    ensures FreeList(base, Store(m.ptr, TailSize(m.size, fl[i], n)), fl)
    ensures Sum(TailSize(m.size, fl[i], n), fl) == Sum(m.size, fl) - n
  {
    var p := fl[i];
    var a := p + m.size[p] - n;
    TailIsNew(base, m, fl, alloc, i, n);
    OrderedDistinct(m.size, fl, |fl|);
    var size := TailSize(m.size, p, n);
    forall x | 0 <= x < |fl| ensures fl[x] in size && size[fl[x]] == (if x == i then m.size[p] - n else m.size[fl[x]]) { }
    var s1 := m.size[p := m.size[p] - n];
    SumResize(m.size, s1, fl, i, p, m.size[p] - n);
    SumFrame(s1, size, fl);
    forall x, y | 0 <= x < y < |fl| ensures fl[x] + size[fl[x]] < fl[y] {
      assert fl[x] + m.size[fl[x]] < fl[y];
    }
  }

  lemma {:induction false} TailAllocated(base: nat, m: Store, fl: seq<nat>, alloc: seq<nat>, i: nat, n: nat)
    requires FreeList(base, m, fl) && Allocated(base, m.size, fl, alloc) && 1 <= i < |fl| && 1 <= n < m.size[fl[i]]
    ensures Allocated(base, TailSize(m.size, fl[i], n), fl, alloc + [fl[i] + m.size[fl[i]] - n])
    ensures forall k :: 0 <= k < |alloc| ==> alloc[k] in TailSize(m.size, fl[i], n) && TailSize(m.size, fl[i], n)[alloc[k]] == m.size[alloc[k]]
  {
    var p := fl[i];
    var a := p + m.size[p] - n;
    var size, more := TailSize(m.size, p, n), alloc + [a];
    TailIsNew(base, m, fl, alloc, i, n);
    assert base < p by { assert fl[0] + m.size[fl[0]] < fl[i]; }
    forall k, x | 0 <= k < |more| && 1 <= x < |fl| ensures fl[x] in size && Apart(size, more[k], fl[x]) {
      TailApart(base, m, fl, alloc, i, n, x);
      if k < |alloc| { assert Apart(m.size, alloc[k], fl[x]); }
    }
    forall k, l | 0 <= k < l < |more| ensures Apart(size, more[k], more[l]) {
      if l == |alloc| { assert Apart(m.size, alloc[k], fl[i]); } else { assert Apart(m.size, alloc[k], alloc[l]); }
    }
  }

  /** The tail and the rest of the free blocks. */
  lemma {:induction false} TailApart(base: nat, m: Store, fl: seq<nat>, alloc: seq<nat>, i: nat, n: nat, x: nat)
    requires FreeList(base, m, fl) && Allocated(base, m.size, fl, alloc) && 1 <= i < |fl| && 1 <= n < m.size[fl[i]] && x < |fl|
    ensures var size := TailSize(m.size, fl[i], n);
            fl[x] in size && size[fl[x]] == (if x == i then m.size[fl[i]] - n else m.size[fl[x]])
    ensures 1 <= x ==> Apart(TailSize(m.size, fl[i], n), fl[i] + m.size[fl[i]] - n, fl[x])
  {
    TailIsNew(base, m, fl, alloc, i, n);
    OrderedDistinct(m.size, fl, |fl|);
    if x < i { assert fl[x] + m.size[fl[x]] < fl[i]; }
    if x > i { assert fl[i] + m.size[fl[i]] < fl[x]; }
  }

  lemma TailSizes(base: nat, m: Store, fl: seq<nat>, alloc: seq<nat>, i: nat, n: nat)
    requires FreeList(base, m, fl) && Allocated(base, m.size, fl, alloc) && 1 <= i < |fl| && 1 <= n < m.size[fl[i]]
    ensures SameSizes(m.size, TailSize(m.size, fl[i], n), alloc)
  {
    TailAllocated(base, m, fl, alloc, i, n);
  }

  /** malloc, larger block: its tail goes to the program. */
  lemma TailKeepsOk(base: nat, m: Store, fl: seq<nat>, alloc: seq<nat>, brk: nat, total: nat, i: nat, n: nat)
    requires Ok(base, m, fl, alloc, brk, total) && 1 <= i < |fl| && 1 <= n < m.size[fl[i]]
    ensures Ok(base, Store(m.ptr, TailSize(m.size, fl[i], n)), fl, alloc + [fl[i] + m.size[fl[i]] - n], brk, total)
  {
    var size, more := TailSize(m.size, fl[i], n), alloc + [fl[i] + m.size[fl[i]] - n];
    TailFreeList(base, m, fl, alloc, i, n);
    TailAllocated(base, m, fl, alloc, i, n);
    TailIsNew(base, m, fl, alloc, i, n);
    OrderedDistinct(m.size, fl, |fl|);
    forall x | 0 <= x < |fl| ensures fl[x] + size[fl[x]] <= brk { }
    SumFrame(m.size, size, alloc);
    assert more[..|more| - 1] == alloc;
  }

  /** A header written above the break leaves the free list as it is. */
  lemma {:induction false} GrantList(base: nat, m: Store, fl: seq<nat>, brk: nat, hp: nat, n: nat)
    requires FreeList(base, m, fl) && Below(m.size, fl, brk) && base < brk <= hp
    ensures FreeList(base, Store(m.ptr, m.size[hp := n]), fl) && SameSizes(m.size, m.size[hp := n], fl)
  {
    forall x | 0 <= x < |fl| ensures fl[x] != hp {
      assert fl[x] + m.size[fl[x]] <= brk;
      if x >= 1 { assert m.size[fl[x]] >= 1; }
    }
  }

  /** The region is a block apart from all others. */
  lemma {:induction false} GrantAllocated(base: nat, size: map<nat, nat>, fl: seq<nat>, alloc: seq<nat>, brk: nat, hp: nat, n: nat)
    requires Allocated(base, size, fl, alloc) && Below(size, fl, brk) && Below(size, alloc, brk) && base < brk <= hp && 1 <= n
    requires SameSizes(size, size[hp := n], fl)
    ensures Allocated(base, size[hp := n], fl, alloc + [hp]) && SameSizes(size, size[hp := n], alloc)
  {
    var now, more := size[hp := n], alloc + [hp];
    forall k | 0 <= k < |alloc| ensures alloc[k] != hp {
      assert alloc[k] + size[alloc[k]] <= brk;
    }
    forall k, l | 0 <= k < l < |more| ensures Apart(now, more[k], more[l]) {
      if l < |alloc| { assert Apart(size, alloc[k], alloc[l]); } else { assert alloc[k] + size[alloc[k]] <= brk; }
    }
    forall k, i | 0 <= k < |more| && 1 <= i < |fl| ensures Apart(now, more[k], fl[i]) {
      if k < |alloc| { assert Apart(size, alloc[k], fl[i]); } else { assert fl[i] + size[fl[i]] <= brk; }
    }
  }

  lemma {:induction false} GrantSums(size: map<nat, nat>, fl: seq<nat>, alloc: seq<nat>, hp: nat, n: nat)
    requires SameSizes(size, size[hp := n], fl) && SameSizes(size, size[hp := n], alloc)
    ensures forall k :: 0 <= k < |alloc + [hp]| ==> (alloc + [hp])[k] in size[hp := n]
    ensures Sum(size[hp := n], fl) == Sum(size, fl) && Sum(size[hp := n], alloc + [hp]) == Sum(size, alloc) + n
  {
    var more := alloc + [hp];
    SumFrame(size, size[hp := n], fl);
    SumFrame(size, size[hp := n], alloc);
    assert more[..|more| - 1] == alloc;
  }

  /** A region fresh from sbrk counts as a block of the program until it is freed. */
  lemma {:induction false} GrantKeepsOk(base: nat, m: Store, fl: seq<nat>, alloc: seq<nat>, brk: nat, total: nat, hp: nat, n: nat)
    requires Ok(base, m, fl, alloc, brk, total) && base < brk <= hp && 1 <= n
    ensures Ok(base, Store(m.ptr, m.size[hp := n]), fl, alloc + [hp], hp + n, total + n)
  {
    GrantList(base, m, fl, brk, hp, n);
    GrantAllocated(base, m.size, fl, alloc, brk, hp, n);
    GrantSums(m.size, fl, alloc, hp, n);
  }

  // ---- the allocator -------------------------------------------------------------------

  /** Some position is the place of any address above the base. */
  lemma {:induction false} FindPlace(fl: seq<nat>, b: nat, n: nat) returns (j: nat)
    requires 1 <= n <= |fl| && fl[0] < b && b !in fl && (n < |fl| ==> b < fl[n])
    ensures Place(fl, j, b)
    decreases n
  {
    if fl[n - 1] < b {
      j := n - 1;
    } else {
      j := FindPlace(fl, b, n - 1);
    }
  }

  /** free's first if. */
  function JoinUp(m: Store, p: nat, bp: nat): (r: Store)
    requires p in m.ptr && bp in m.size && m.ptr[p] in m.size && m.ptr[p] in m.ptr
  {
    var next := m.ptr[p];
    if bp + m.size[bp] == next then Store(m.ptr[bp := m.ptr[next]], m.size[bp := m.size[bp] + m.size[next]])
    else Store(m.ptr[bp := next], m.size)
  }

  /** free's second if. */
  function JoinDown(m: Store, p: nat, bp: nat): (r: Store)
    requires p in m.size && bp in m.size && bp in m.ptr
  {
    if p + m.size[p] == bp then Store(m.ptr[p := m.ptr[bp]], m.size[p := m.size[p] + m.size[bp]])
    else Store(m.ptr[p := bp], m.size)
  }

  /** The first if absorbs the block above. */
  lemma {:induction false} JoinUpIs(base: nat, m: Store, fl: seq<nat>, j: nat, bp: nat)
    requires FreeList(base, m, fl) && Between(m.size, fl, j, bp) && base < bp
    ensures Hop(m.ptr, fl, j) && m.ptr[fl[j]] in m.size && m.ptr[fl[j]] in m.ptr
    ensures JoinUp(m, fl[j], bp) == Store(m.ptr[bp := After(fl, j + Touch(m.size, fl, j, bp))], UpSize(m.size, fl, j, bp))
  {
    assert Hop(m.ptr, fl, j);
    assert Hop(m.ptr, fl, if j + 1 < |fl| then j + 1 else 0);
    assert Touch(m.size, fl, j, bp) == 1 <==> bp + m.size[bp] == m.ptr[fl[j]];
  }

  /** The second if: bp either joins p or follows it. */
  lemma {:induction false} JoinDownIs(ptr: map<nat, nat>, size: map<nat, nat>, p: nat, bp: nat, next: nat)
    requires p in size && bp in size && p != bp
    ensures JoinDown(Store(ptr[bp := next], size), p, bp)
            == if p + size[p] == bp then Store(ptr[bp := next][p := bp][p := next], DownSize(size, p, bp)) else Store(ptr[bp := next][p := bp], size)
  {
    assert ptr[bp := next][p := bp][p := next] == ptr[bp := next][p := next];
  }

  lemma {:induction false} AfterUp(size: map<nat, nat>, fl: seq<nat>, j: nat, bp: nat)
    requires Between(size, fl, j, bp)
    ensures After(UpList(size, fl, j, bp), j + 1) == After(fl, j + Touch(size, fl, j, bp))
  {
    var up := UpList(size, fl, j, bp);
    if j + 2 < |up| { assert up[j + 2] == fl[j + 1 + Touch(size, fl, j, bp)]; }
    assert up[0] == fl[0];
  }

  /** The two ifs compute the new pointers and sizes. */
  lemma {:induction false} JoinsAreFreed(base: nat, m: Store, fl: seq<nat>, j: nat, bp: nat)
    requires FreeList(base, m, fl) && Between(m.size, fl, j, bp) && base < bp
    ensures Hop(m.ptr, fl, j) && m.ptr[fl[j]] in m.size && m.ptr[fl[j]] in m.ptr
    ensures JoinDown(JoinUp(m, fl[j], bp), fl[j], bp) == Store(FreedPtr(m, fl, j, bp), FreedSize(m.size, fl, j, bp))
  {
    JoinUpIs(base, m, fl, j, bp);
    UpOrder(m.size, fl, j, bp);
    AfterUp(m.size, fl, j, bp);
    JoinDownIs(m.ptr, UpSize(m.size, fl, j, bp), fl[j], bp, After(fl, j + Touch(m.size, fl, j, bp)));
  }

  /** What one call of free leaves, once the place is found. */
  lemma {:induction false} FreeStep(base: nat, m: Store, fl: seq<nat>, alloc: seq<nat>, brk: nat, total: nat, i: nat, k: nat) returns (now: seq<nat>, r: Store)
    requires Ok(base, m, fl, alloc, brk, total) && k < |alloc| && Place(fl, i, alloc[k])
    ensures Between(m.size, fl, i, alloc[k]) && fl[i] in now
    ensures r == Store(FreedPtr(m, fl, i, alloc[k]), FreedSize(m.size, fl, i, alloc[k]))
    ensures Ok(base, r, now, Cut(alloc, k), brk, total)
    ensures Covers(r.size, now, alloc[k], m.size[alloc[k]]) && SameSizes(m.size, r.size, Cut(alloc, k))
  {
    FreeKeepsOk(base, m, fl, alloc, brk, total, i, k);
    now := FreedList(m.size, fl, i, alloc[k]);
    r := Store(FreedPtr(m, fl, i, alloc[k]), FreedSize(m.size, fl, i, alloc[k]));
    FreeEffects(base, m, fl, alloc, i, k);
  }

  /** And its two ifs compute that. */
  lemma {:induction false} JoinStep(base: nat, m: Store, fl: seq<nat>, alloc: seq<nat>, i: nat, k: nat)
    requires FreeList(base, m, fl) && Allocated(base, m.size, fl, alloc) && k < |alloc| && Between(m.size, fl, i, alloc[k])
    ensures fl[i] in m.ptr && m.ptr[fl[i]] in m.size && m.ptr[fl[i]] in m.ptr && alloc[k] in m.size
    ensures JoinDown(JoinUp(m, fl[i], alloc[k]), fl[i], alloc[k])
            == Store(FreedPtr(m, fl, i, alloc[k]), FreedSize(m.size, fl, i, alloc[k]))
  {
    assert base < alloc[k];
    JoinsAreFreed(base, m, fl, i, alloc[k]);
  }

  ghost predicate SameSizes(s: map<nat, nat>, t: map<nat, nat>, blocks: seq<nat>)
  {
    forall l :: 0 <= l < |blocks| ==> blocks[l] in s && blocks[l] in t && s[blocks[l]] == t[blocks[l]]
  }

  lemma FreeEffects(base: nat, m: Store, fl: seq<nat>, alloc: seq<nat>, i: nat, k: nat)
    requires FreeList(base, m, fl) && Allocated(base, m.size, fl, alloc) && k < |alloc| && Between(m.size, fl, i, alloc[k])
    ensures var now, size := FreedList(m.size, fl, i, alloc[k]), FreedSize(m.size, fl, i, alloc[k]);
            fl[i] in now && Covers(size, now, alloc[k], m.size[alloc[k]]) && SameSizes(m.size, size, Cut(alloc, k))
  {
    FreedAllocated(base, m, fl, alloc, i, k);
    FreedKeepsPlace(m.size, fl, i, alloc[k]);
    FreedCovers(m.size, fl, i, alloc[k]);
  }

  /** Some free block contains the n units from b on. */
  ghost predicate Covers(size: map<nat, nat>, fl: seq<nat>, b: nat, n: nat)
  {
    exists t :: 1 <= t < |fl| && fl[t] in size && fl[t] <= b && b + n <= fl[t] + size[fl[t]]
  }

  lemma FreedCovers(size: map<nat, nat>, fl: seq<nat>, j: nat, bp: nat)
    requires Between(size, fl, j, bp)
    ensures Covers(FreedSize(size, fl, j, bp), FreedList(size, fl, j, bp), bp, size[bp])
  {
    var up := UpList(size, fl, j, bp);
    UpOrder(size, fl, j, bp);
    var t := if Down(size, fl, j, bp) then j else j + 1;
    if Down(size, fl, j, bp) { CutAt(up, j + 1, j); }
    assert FreedList(size, fl, j, bp)[t] == (if Down(size, fl, j, bp) then fl[j] else bp);
  }

  lemma FreedKeepsPlace(size: map<nat, nat>, fl: seq<nat>, j: nat, bp: nat)
    requires Between(size, fl, j, bp)
    ensures fl[j] in FreedList(size, fl, j, bp)
  {
    var up := UpList(size, fl, j, bp);
    assert up[j] == fl[j];
    if Down(size, fl, j, bp) { CutAt(up, j + 1, j); }
    assert FreedList(size, fl, j, bp)[j] == fl[j];
  }

  class Allocator {
    const base: nat
    var m: Store
    var freep: Option<nat>
    var brk: nat               // where the next sbrk region can start
    ghost var fl: seq<nat>
    ghost var alloc: seq<nat>
    ghost var total: nat

    ghost predicate Valid()
      reads this
    {
      && base < brk
      && (freep.None? ==> fl == [] && alloc == [] && total == 0)
      && (freep.Some? ==> freep.value in fl && Ok(base, m, fl, alloc, brk, total))
    }

    constructor (base: nat, brk: nat)
      requires base < brk
      ensures Valid() && freep.None? && alloc == [] && total == 0
    {
      this.base, this.brk := base, brk;
      m, freep := Store(map[], map[]), None;
      fl, alloc, total := [], [], 0;
    }

    /** free's search loop: it always ends, at the place of the block. */
    method Search(bp: nat) returns (p: nat, ghost i: nat)
      requires freep.Some? && freep.value in fl && FreeList(base, m, fl) && base < bp && bp !in fl
      ensures i < |fl| && p == fl[i] && Place(fl, i, bp)
    {
      ghost var j := FindPlace(fl, bp, |fl|);
      p := freep.value;
      i :| 0 <= i < |fl| && fl[i] == p;
      assert Hop(m.ptr, fl, i);
      while !(bp > p && bp < m.ptr[p])
        invariant i < |fl| && p == fl[i] && Hop(m.ptr, fl, i)
        decreases if i <= j then j - i else |fl| - i + j
      {
        if p >= m.ptr[p] && (bp > p || bp < m.ptr[p]) {
          EndOfList(base, m, fl, i);
          break;
        }
        EndOfList(base, m, fl, i);
        p := m.ptr[p];
        i := if i + 1 < |fl| then i + 1 else 0;
        assert Hop(m.ptr, fl, i);
      }
      EndOfList(base, m, fl, i);
    }

    /** free (umalloc.c): the block joins the free units, merged with its neighbours; the
        other blocks of the program are untouched. */
    method Free(bp: nat, ghost k: nat)
      requires Valid() && k < |alloc| && alloc[k] == bp
      modifies this`m, this`freep, this`fl, this`alloc
      ensures Valid() && freep.Some?
      ensures alloc == Cut(old(alloc), k)
      ensures SameSizes(old(m.size), m.size, alloc)
      ensures bp in old(m.size) && Covers(m.size, fl, bp, old(m.size)[bp])
    {
      NotOnList(base, m, fl, alloc, k);
      var p, i := Search(bp);
      Merge(p, bp, i, k);
    }

    /** free's two ifs, at the place of the block. */
    method Merge(p: nat, bp: nat, ghost i: nat, ghost k: nat)
      requires Valid() && k < |alloc| && alloc[k] == bp && Place(fl, i, bp) && p == fl[i]
      modifies this`m, this`freep, this`fl, this`alloc
      ensures Valid() && freep.Some?
      ensures alloc == Cut(old(alloc), k)
      ensures SameSizes(old(m.size), m.size, alloc)
      ensures bp in old(m.size) && Covers(m.size, fl, bp, old(m.size)[bp])
    {
      ghost var now, r := FreeStep(base, m, fl, alloc, brk, total, i, k);
      JoinStep(base, m, fl, alloc, i, k);
      m := JoinUp(m, p, bp);
      m := JoinDown(m, p, bp);
      fl, alloc := now, Cut(alloc, k);
      freep := Some(p);
    }

    /** morecore (umalloc.c): at least 4096 units from sbrk go to the free list.  The grant is
        what sbrk returned, at or above the old break, or nothing.  If sbrk was asked for less than
        the units counted, the header goes behind the end of the process, and the model stops. */
    method Morecore(n: nat, grant: Option<nat>) returns (r: More)
      requires Valid() && freep.Some? && (grant.Some? ==> grant.value >= brk)
      modifies this
      ensures Valid() && freep.Some? && alloc == old(alloc)
      ensures r == if grant.None? then Refused else if AsksForIt(n) then Grown else Short
      ensures SameSizes(old(m.size), m.size, alloc)
      ensures r.Grown? ==> HasFit(m.size, fl, n) && total == old(total) + Counted(n)
      ensures r.Grown? ==> total >= old(total) + n && total >= old(total) + 4096 && (total == old(total) + n || total == old(total) + 4096)
      ensures !r.Grown? ==> m == old(m) && freep == old(freep) && fl == old(fl) && total == old(total) && brk == old(brk)
    {
      if grant.None? {
        return Refused;
      }
      var nu := Counted(n);
      if SbrkArgument(n) < nu * HEADER {
        return Short;
      }
      Enlarge(grant.value, nu);
      return Grown;
    }

    /** The region becomes a block and is freed. */
    method Enlarge(hp: nat, nu: nat)
      requires Valid() && freep.Some? && hp >= brk && nu >= 1
      modifies this
      ensures Valid() && freep.Some? && alloc == old(alloc) && SameSizes(old(m.size), m.size, alloc)
      ensures HasFit(m.size, fl, nu) && total == old(total) + nu
    {
      Adopt(hp, nu);
      ghost var was := alloc;
      Free(hp, |alloc| - 1);
      assert Cut(was, |was| - 1) == old(alloc);
    }

    /** hp->s.size = nu: the region becomes a block. */
    method Adopt(hp: nat, nu: nat)
      requires Valid() && freep.Some? && hp >= brk && nu >= 1
      modifies this`m, this`alloc, this`total, this`brk
      ensures Valid() && alloc == old(alloc) + [hp] && total == old(total) + nu
      ensures SameSizes(old(m.size), m.size, old(alloc)) && hp in m.size && m.size[hp] == nu
    {
      GrantKeepsOk(base, m, fl, alloc, brk, total, hp, nu);
      GrantFrame(base, m, fl, alloc, brk, total, hp);
      m := Store(m.ptr, m.size[hp := nu]);
      alloc, total, brk := alloc + [hp], total + nu, hp + nu;
    }

    /** malloc's then-branch at the block p of position i: exact fit, or cut off the tail. */
    method Take(prevp: nat, p: nat, n: nat, ghost i: nat) returns (a: nat)
      requires freep.Some? && Ok(base, m, fl, alloc, brk, total) && base < brk && 1 <= n
      requires 1 <= i < |fl| && p == fl[i] && prevp == fl[i - 1] && p in m.size && m.size[p] >= n
      modifies this`m, this`freep, this`fl, this`alloc
      ensures Valid() && freep.Some? && alloc == old(alloc) + [a]
      ensures a in m.size && m.size[a] == n
      ensures SameSizes(old(m.size), m.size, old(alloc))
    {
      a := Carve(prevp, p, n, i);
      freep := Some(prevp);
    }

    method Carve(prevp: nat, p: nat, n: nat, ghost i: nat) returns (a: nat)
      requires freep.Some? && Ok(base, m, fl, alloc, brk, total) && 1 <= n
      requires 1 <= i < |fl| && p == fl[i] && prevp == fl[i - 1] && p in m.size && m.size[p] >= n
      modifies this`m, this`fl, this`alloc
      ensures Ok(base, m, fl, alloc, brk, total) && prevp in fl && alloc == old(alloc) + [a]
      ensures a in m.size && m.size[a] == n && SameSizes(old(m.size), m.size, old(alloc))
    {
      if m.size[p] == n {
        TakeWhole(prevp, p, i);
        return p;
      }
      a := TakeTail(p, n, i);
    }

    /** prevp->s.ptr = p->s.ptr. */
    method TakeWhole(prevp: nat, p: nat, ghost i: nat)
      requires freep.Some? && Ok(base, m, fl, alloc, brk, total)
      requires 1 <= i < |fl| && p == fl[i] && prevp == fl[i - 1]
      modifies this`m, this`fl, this`alloc
      ensures Ok(base, m, fl, alloc, brk, total) && prevp in fl && m.size == old(m.size) && alloc == old(alloc) + [p]
      ensures SameSizes(old(m.size), m.size, old(alloc))
    {
      TakeKeepsOk(base, m, fl, alloc, brk, total, i);
      NextIs(base, m, fl, i);
      m := Store(m.ptr[prevp := m.ptr[p]], m.size);
      fl, alloc := Cut(fl, i), alloc + [p];
    }

    /** p->s.size -= nunits; p += p->s.size; p->s.size = nunits. */
    method TakeTail(p: nat, n: nat, ghost i: nat) returns (a: nat)
      requires Ok(base, m, fl, alloc, brk, total)
      requires 1 <= i < |fl| && p == fl[i] && p in m.size && 1 <= n < m.size[p]
      modifies this`m, this`alloc
      ensures Ok(base, m, fl, alloc, brk, total) && alloc == old(alloc) + [a] && a in m.size && m.size[a] == n
      ensures SameSizes(old(m.size), m.size, old(alloc))
    {
      a := p + m.size[p] - n;
      ghost var size := TailSize(m.size, p, n);
      TailKeepsOk(base, m, fl, alloc, brk, total, i, n);
      TailSizes(base, m, fl, alloc, i, n);
      m := Store(m.ptr, m.size[p := m.size[p] - n][a := n]);
      assert m.size == size;
      alloc := alloc + [a];
    }

    /** The first-use branch of malloc: a list of the empty base block. */
    method Initialise()
      requires Valid() && freep.None?
      modifies this`m, this`freep, this`fl
      ensures Valid() && freep.Some? && fl == [base] && alloc == [] && total == 0
    {
      m := Store(m.ptr[base := base], m.size[base := 0]);
      freep := Some(base);
      fl := [base];
      assert Hop(m.ptr, fl, 0);
      assert fl[..0] == [];
    }

    /** Malloc's walk stands at position b of the list, having left freep at position f; it
        began with sizes s, list l, blocks al and t units. */
    ghost predicate Walking(f: nat, b: nat, p: nat, prevp: nat, n: nat, grew: bool, s: map<nat, nat>, l: seq<nat>, al: seq<nat>, t: nat)
      reads this
    {
      && Valid() && freep.Some? && f < |fl| && freep.value == fl[f]
      && b < |fl| && p == fl[b] && prevp == fl[Before(|fl|, b)]
      && alloc == al && SameSizes(s, m.size, al)
      && (!grew ==> total == t && m.size == s && fl == l && NoFitUpTo(m.size, fl, n, f, b))
      && (grew ==> total == t + Counted(n) && !HasFit(s, l, n) && FitFrom(m.size, fl, n, f, b))
    }

    /** for(...; prevp = p, p = p->s.ptr) */
    method Step(p: nat, ghost f: nat, ghost b: nat) returns (q: nat, ghost c: nat)
      requires Valid() && freep.Some? && f < |fl| && b < |fl| && p == fl[b]
      ensures c == Next(|fl|, b) && q == fl[c] && Before(|fl|, c) == b
    {
      assert Hop(m.ptr, fl, b);
      q := m.ptr[p];
      c := Next(|fl|, b);
    }

    /** The lap is over without a fit: morecore, and on from the new freep. */
    method Refill(n: nat, grant: Option<nat>, ghost f: nat, ghost b: nat, p: nat, ghost prevp: nat,
                  ghost s: map<nat, nat>, ghost l: seq<nat>, ghost al: seq<nat>, ghost t: nat) returns (ok: bool, q: nat, ghost g: nat)
      requires Walking(f, b, p, prevp, n, false, s, l, al, t) && p == freep.value && p in m.size && m.size[p] < n
      requires grant.Some? ==> grant.value >= brk
      modifies this
      ensures Valid() && freep.Some? && alloc == al && SameSizes(s, m.size, al) && !HasFit(s, l, n) && ok == Granted(n, grant)
      ensures ok ==> g < |fl| && q == fl[g] == freep.value && total == t + Counted(n)
      ensures ok ==> FitFrom(m.size, fl, n, g, Next(|fl|, g))
      ensures !ok ==> total == t
    {
      LapDone(base, m, fl, n, f, b);
      var more := Morecore(n, grant);
      ok := more.Grown?;
      q := freep.value;
      g :| 0 <= g < |fl| && fl[g] == q;
      if ok {
        FitSomewhere(m.size, fl, n, g);
      }
    }

    /** What malloc leaves behind, from sizes s, list l, blocks al and t units. */
    ghost predicate Outcome(r: Option<nat>, n: nat, grew: bool, granted: bool, s: map<nat, nat>, l: seq<nat>, al: seq<nat>, t: nat)
      reads this
    {
      && Valid() && freep.Some? && SameSizes(s, m.size, al)
      && (grew <==> !HasFit(s, l, n))
      && (r.None? <==> grew && !granted)
      && (r.None? ==> alloc == al && total == t)
      && (r.Some? ==>
            && alloc == al + [r.value] && r.value in m.size && m.size[r.value] == n
            && total == t + (if !grew then 0 else Counted(n)))
    }

    /** The then-branch: p is large enough. */
    method TakeHere(prevp: nat, p: nat, n: nat, ghost f: nat, ghost b: nat, ghost grew: bool, ghost granted: bool,
                    ghost s: map<nat, nat>, ghost l: seq<nat>, ghost al: seq<nat>, ghost t: nat) returns (r: Option<nat>)
      requires n >= 1 && Walking(f, b, p, prevp, n, grew, s, l, al, t) && (grew ==> granted)
      requires p in m.size && m.size[p] >= n
      modifies this`m, this`freep, this`fl, this`alloc
      ensures Outcome(r, n, grew, granted, s, l, al, t)
    {
      assert fl[0] in m.size;
      FitHere(m.size, fl, n, b);
      ghost var was := m.size;
      var a := Take(prevp, p, n, b);
      SameSizesTrans(s, was, m.size, al);
      r := Some(a);
    }

    /** The loop's step from a block too small and not freep. */
    method Advance(p: nat, n: nat, ghost prevp: nat, ghost f: nat, ghost b: nat, ghost grew: bool,
                   ghost s: map<nat, nat>, ghost l: seq<nat>, ghost al: seq<nat>, ghost t: nat) returns (q: nat, ghost c: nat)
      requires Walking(f, b, p, prevp, n, grew, s, l, al, t) && p != freep.value && p in m.size && m.size[p] < n
      ensures Walking(f, c, q, p, n, grew, s, l, al, t) && Lap(|fl|, f, c) == Lap(|fl|, f, b) + 1
    {
      q, c := Step(p, f, b);
      LapStep(m.size, fl, n, f, b);
    }

    /** The first step of a lap: the block after freep. */
    method Depart(n: nat, ghost f: nat, ghost grew: bool,
                  ghost s: map<nat, nat>, ghost l: seq<nat>, ghost al: seq<nat>, ghost t: nat) returns (q: nat, ghost c: nat)
      requires Valid() && freep.Some? && f < |fl| && freep.value == fl[f] && alloc == al && SameSizes(s, m.size, al)
      requires !grew ==> total == t && m.size == s && fl == l
      requires grew ==> total == t + Counted(n) && !HasFit(s, l, n) && FitFrom(m.size, fl, n, f, Next(|fl|, f))
      ensures Walking(f, c, q, freep.value, n, grew, s, l, al, t)
    {
      q, c := Step(freep.value, f, f);
    }

    /** malloc's loop. */
    method Walk(n: nat, grant: Option<nat>) returns (r: Option<nat>, ghost grew: bool)
      requires Valid() && freep.Some? && n >= 1 && (grant.Some? ==> grant.value >= brk)
      modifies this
      ensures Outcome(r, n, grew, Granted(n, grant), old(m.size), old(fl), old(alloc), old(total))
    {
      ghost var s, l, al, t, granted := m.size, fl, alloc, total, Granted(n, grant);
      grew := false;
      var prevp := freep.value;
      ghost var f: nat :| 0 <= f < |fl| && fl[f] == prevp;
      var p;
      ghost var b;
      p, b := Depart(n, f, false, s, l, al, t);
      while true
        invariant Walking(f, b, p, prevp, n, grew, s, l, al, t) && (grew ==> granted) && (!grew && grant.Some? ==> grant.value >= brk)
        decreases !grew, |fl| - Lap(|fl|, f, b)
      {
        assert fl[b] in m.size;
        if m.size[p] >= n {
          r := TakeHere(prevp, p, n, f, b, grew, granted, s, l, al, t);
          return r, grew;
        }
        if p == freep.value {
          FitAhead(base, m, fl, n, f, b);
          var ok;
          ok, p, f := Refill(n, grant, f, b, p, prevp, s, l, al, t);
          grew := true;
          if !ok {
            return None, grew;
          }
          prevp := p;
          p, b := Depart(n, f, true, s, l, al, t);
        } else {
          ghost var from := prevp;
          prevp := p;
          p, b := Advance(p, n, from, f, b, grew, s, l, al, t);
        }
      }
    }

    /** malloc (umalloc.c).  The walk ends; morecore is called at most once, and only when no
        free block is large enough; the block returned has nunits units of its own, and no
        other block of the program changes.  It runs wild exactly if sbrk is asked for less than
        morecore counts, and answers. */
    method Malloc(nbytes: nat, grant: Option<nat>) returns (r: Got, ghost grew: bool)
      requires Valid() && nbytes < UINT && (grant.Some? ==> grant.value >= brk)
      modifies this
      ensures Valid() && freep.Some? && SameSizes(old(m.size), m.size, old(alloc))
      ensures grew <==> !HasFit(old(m.size), old(fl), Units(nbytes))
      ensures r.NoMemory? <==> grew && grant.None?
      ensures r.Wild? <==> grew && grant.Some? && UINT / 2 - 2 * HEADER < nbytes <= UINT - HEADER
      ensures !r.At? ==> alloc == old(alloc) && total == old(total)
      ensures r.At? ==>
                && r.p >= 1 && alloc == old(alloc) + [r.p - 1]
                && r.p - 1 in m.size && m.size[r.p - 1] == Units(nbytes)
                && total == old(total) + (if grew then Counted(Units(nbytes)) else 0)
    {
      var n := Units(nbytes);
      if freep.None? {
        Initialise();
      }
      SbrkAsksForIt(nbytes);
      var a;
      a, grew := Walk(n, grant);
      r := if a.Some? then At(a.value + 1) else if grant.None? then NoMemory else Wild;
    }
  }

  ghost function Next(n: nat, i: nat): (j: nat)
    requires i < n
    ensures j < n
  {
    if i + 1 < n then i + 1 else 0
  }

  ghost function Before(n: nat, i: nat): (j: nat)
    requires i < n
    ensures j < n
  {
    if i == 0 then n - 1 else i - 1
  }

  /** How far position b is on the lap that starts after f: 0 just after f, n - 1 at f. */
  ghost function Lap(n: nat, f: nat, b: nat): (d: nat)
    requires f < n && b < n
    ensures d < n
  {
    if b > f then b - f - 1 else b - f - 1 + n
  }

  /** No block passed so far on the lap is large enough. */
  ghost predicate NoFitUpTo(size: map<nat, nat>, fl: seq<nat>, n: nat, f: nat, b: nat)
  {
    f < |fl| && b < |fl| && forall x :: 0 <= x < |fl| && Lap(|fl|, f, x) < Lap(|fl|, f, b) ==> fl[x] in size && size[fl[x]] < n
  }

  /** A block large enough is still ahead on the lap. */
  ghost predicate FitFrom(size: map<nat, nat>, fl: seq<nat>, n: nat, f: nat, b: nat)
  {
    f < |fl| && b < |fl| && exists x :: 0 <= x < |fl| && Lap(|fl|, f, x) >= Lap(|fl|, f, b) && fl[x] in size && size[fl[x]] >= n
  }

  ghost predicate HasFit(size: map<nat, nat>, fl: seq<nat>, n: nat)
  {
    exists t :: 1 <= t < |fl| && fl[t] in size && size[fl[t]] >= n
  }

  /** One step along the lap. */
  lemma LapStep(size: map<nat, nat>, fl: seq<nat>, n: nat, f: nat, b: nat)
    requires f < |fl| && b < |fl| && b != f && fl[b] in size && size[fl[b]] < n
    ensures Lap(|fl|, f, Next(|fl|, b)) == Lap(|fl|, f, b) + 1
    ensures NoFitUpTo(size, fl, n, f, b) ==> NoFitUpTo(size, fl, n, f, Next(|fl|, b))
    ensures FitFrom(size, fl, n, f, b) ==> FitFrom(size, fl, n, f, Next(|fl|, b))
  {
    forall x | 0 <= x < |fl| && x != b ensures Lap(|fl|, f, x) != Lap(|fl|, f, b) { }
  }

  lemma SameSizesTrans(s: map<nat, nat>, t: map<nat, nat>, u: map<nat, nat>, blocks: seq<nat>)
    requires SameSizes(s, t, blocks) && SameSizes(t, u, blocks)
    ensures SameSizes(s, u, blocks)
  {
  }

  /** After morecore the lap cannot end without a fit. */
  lemma FitAhead(base: nat, m: Store, fl: seq<nat>, n: nat, f: nat, b: nat)
    requires FreeList(base, m, fl) && f < |fl| && b < |fl| && fl[b] == fl[f] && m.size[fl[b]] < n
    ensures !FitFrom(m.size, fl, n, f, b)
  {
    OrderedDistinct(m.size, fl, |fl|);
    assert b == f;
    forall x | 0 <= x < |fl| && Lap(|fl|, f, x) >= Lap(|fl|, f, b) ensures x == b { }
  }

  lemma FitHere(size: map<nat, nat>, fl: seq<nat>, n: nat, b: nat)
    requires b < |fl| && fl[b] in size && fl[0] in size && size[fl[b]] >= n >= 1 && size[fl[0]] == 0
    ensures b >= 1 && HasFit(size, fl, n)
  {
  }

  /** Back at freep with nothing found: nothing on the list is large enough. */
  lemma LapDone(base: nat, m: Store, fl: seq<nat>, n: nat, f: nat, b: nat)
    requires FreeList(base, m, fl) && f < |fl| && b < |fl| && fl[b] == fl[f] && m.size[fl[b]] < n
    requires NoFitUpTo(m.size, fl, n, f, b)
    ensures !HasFit(m.size, fl, n)
  {
    OrderedDistinct(m.size, fl, |fl|);
    assert b == f;
    forall x | 1 <= x < |fl| ensures m.size[fl[x]] < n {
      assert x == f || Lap(|fl|, f, x) < Lap(|fl|, f, b);
    }
  }

  lemma FitSomewhere(size: map<nat, nat>, fl: seq<nat>, n: nat, f: nat)
    requires f < |fl| && HasFit(size, fl, n)
    ensures FitFrom(size, fl, n, f, Next(|fl|, f))
  {
    var t :| 1 <= t < |fl| && fl[t] in size && size[fl[t]] >= n;
    assert Lap(|fl|, f, t) >= Lap(|fl|, f, Next(|fl|, f));
  }

  lemma GrantFrame(base: nat, m: Store, fl: seq<nat>, alloc: seq<nat>, brk: nat, total: nat, hp: nat)
    requires Ok(base, m, fl, alloc, brk, total) && brk <= hp
    ensures forall l :: 0 <= l < |alloc| ==> alloc[l] != hp
  {
    forall l | 0 <= l < |alloc| ensures alloc[l] != hp {
      assert alloc[l] + m.size[alloc[l]] <= brk;
    }
  }

  lemma NotOnList(base: nat, m: Store, fl: seq<nat>, alloc: seq<nat>, k: nat)
    requires FreeList(base, m, fl) && Allocated(base, m.size, fl, alloc) && k < |alloc|
    ensures alloc[k] !in fl && base < alloc[k]
  {
    forall i | 0 <= i < |fl| ensures fl[i] != alloc[k] {
      if i >= 1 { assert Apart(m.size, alloc[k], fl[i]); }
    }
  }

  /** A pointer goes down in address exactly at the end of the list, and then to the base. */
  lemma EndOfList(base: nat, m: Store, fl: seq<nat>, i: nat)
    requires FreeList(base, m, fl) && i < |fl| && Hop(m.ptr, fl, i)
    ensures m.ptr[fl[i]] == (if i + 1 < |fl| then fl[i + 1] else base)
    ensures m.ptr[fl[i]] <= fl[i] <==> i + 1 == |fl|
    ensures base <= fl[i]
  {
    if i + 1 < |fl| { assert fl[i] + m.size[fl[i]] < fl[i + 1]; }
    if i >= 1 { assert fl[0] + m.size[fl[0]] < fl[i]; }
  }
}
