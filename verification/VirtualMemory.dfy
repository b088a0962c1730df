/** kalloc.c's page free list, and vm.c's building, copying and freeing of address spaces. */
module VirtualMemory {
  import opened Sequences
  import opened Wrappers
  import opened PageTables

  const KERNBASE: nat := 0x8000_0000
  const JUNK: nat := 0x0101_0101

  /** p2v of a frame's address. */
  function Address(f: nat): (a: nat)
    ensures a > 0
  {
    KERNBASE + f * PGSIZE
  }

  function FrameAt(a: nat): (f: nat)
    requires a >= KERNBASE
  {
    (a - KERNBASE) / PGSIZE
  }

  lemma FrameAtAddress(f: nat)
    ensures FrameAt(Address(f)) == f
  {
  }

  /** The frames of the pages that lie wholly in [vstart, vend). */
  function FirstFrame(vstart: nat): (f: nat)
    requires vstart >= KERNBASE
  {
    (vstart - KERNBASE + PGSIZE - 1) / PGSIZE
  }

  function LastFrame(vend: nat): (f: nat)
  {
    if vend >= KERNBASE then (vend - KERNBASE) / PGSIZE else 0
  }

  lemma FirstFrameIs(vstart: nat)
    requires vstart >= KERNBASE
    ensures (vstart + PGSIZE - 1) / PGSIZE * PGSIZE == Address(FirstFrame(vstart))
  {
    assert KERNBASE == PGSIZE * 0x8_0000;
    assert (vstart + PGSIZE - 1) / PGSIZE == FirstFrame(vstart) + 0x8_0000;
  }

  lemma WhollyInside(vstart: nat, vend: nat, f: nat)
    requires KERNBASE <= vstart
    ensures FirstFrame(vstart) <= f < LastFrame(vend) <==> vstart <= Address(f) && Address(f) + PGSIZE <= vend
  {
  }

  // ---- the free list ---------------------------------------------------------------------------

  function Link(free: seq<nat>, k: nat): (a: nat)
  {
    if k < |free| then Address(free[k]) else 0
  }

  ghost predicate LinkOk(m: Memory, free: seq<nat>, k: nat)
    requires k < |free|
  {
    free[k] in m && m[free[k]][0] == Link(free, k + 1)
  }

  /** The free pages are linked through their first words. */
  ghost predicate Chain(m: Memory, head: nat, free: seq<nat>)
  {
    && head == Link(free, 0) && (forall f :: f in free ==> f in m)
    && (forall k :: 0 <= k < |free| ==> LinkOk(m, free, k))
    && (forall k, l :: 0 <= k < l < |free| ==> free[k] != free[l])
  }

  ghost function Set(free: seq<nat>): (s: set<nat>)
    ensures forall f :: f in s <==> f in free
  {
    set f | f in free
  }

  lemma ChainFrame(m: Memory, n: Memory, head: nat, free: seq<nat>)
    requires Chain(m, head, free) && Agree(m, n, Set(free))
    ensures Chain(n, head, free)
  {
    forall k | 0 <= k < |free| ensures LinkOk(n, free, k) { assert LinkOk(m, free, k) && free[k] in Set(free); }
  }

  lemma ChainPush(m: Memory, n: Memory, head: nat, free: seq<nat>, f: nat)
    requires Chain(m, head, free) && f in n && f !in free && n[f][0] == head && Agree(m, n, Set(free))
    ensures Chain(n, Address(f), [f] + free)
  {
    var now := [f] + free;
    forall k | 0 <= k < |now| ensures LinkOk(n, now, k) {
      if k > 0 { assert LinkOk(m, free, k - 1) && free[k - 1] in Set(free); }
    }
  }

  lemma ChainPop(m: Memory, head: nat, free: seq<nat>)
    requires Chain(m, head, free) && free != []
    ensures Chain(m, m[free[0]][0], free[1..]) && free[0] !in free[1..]
  {
    assert LinkOk(m, free, 0);
    forall k | 0 <= k < |free| - 1 ensures LinkOk(m, free[1..], k) { assert LinkOk(m, free, k + 1); }
  }

  // ---- accounting --------------------------------------------------------------------------------

  /** The frames outside the free set, other than the directory and tables of the space, hold
      what they held. */
  ghost predicate Untouched(m: Memory, n: Memory, owner: map<nat, Use>, free: set<nat>)
  {
    n.Keys == m.Keys && forall f :: f in m && f !in free && (f in owner ==> owner[f].User?) ==> n[f] == m[f]
  }

  /** Free frames and the frames of the space: none lost, none in both. */
  ghost predicate Split(free: set<nat>, owner: map<nat, Use>, all: set<nat>)
  {
    free + owner.Keys == all && free !! owner.Keys
  }

  datatype Range = Range(v: nat, count: nat, frame: nat, perm: nat)   // a row of kmap

  class Kernel {
    var mem: Memory
    var freelist: nat
    ghost var free: seq<nat>

    ghost predicate Valid()
      reads this
    {
      Chain(mem, freelist, free) && 0 !in mem
    }

    ghost function FreeSet(): (s: set<nat>)
      reads this
    {
      Set(free)
    }

    /** kinit before any freerange: frames, none of them free. */
    constructor (m: Memory)
      requires 0 !in m
      ensures Valid() && mem == m && free == []
    {
      mem, freelist, free := m, 0, [];
    }

    /** freerange: the pages that lie wholly in [vstart, vend). */
    method Freerange(vstart: nat, vend: nat)
      requires Valid() && KERNBASE <= vstart
      requires forall f :: FirstFrame(vstart) <= f < LastFrame(vend) ==> f in mem && f !in free
      modifies this
      ensures Valid() && mem.Keys == old(mem).Keys
      ensures forall f :: f in FreeSet() <==> f in old(FreeSet()) || FirstFrame(vstart) <= f < LastFrame(vend)
      ensures forall f :: f in FreeSet() <==> f in old(FreeSet()) || (vstart <= Address(f) && Address(f) + PGSIZE <= vend)
      ensures |free| == |old(free)| + if FirstFrame(vstart) < LastFrame(vend) then LastFrame(vend) - FirstFrame(vstart) else 0
      ensures forall g :: g in mem && !(FirstFrame(vstart) <= g < LastFrame(vend)) ==> mem[g] == old(mem)[g]
    {
      var p := (vstart + PGSIZE - 1) / PGSIZE * PGSIZE;
      ghost var f: nat := FirstFrame(vstart);
      FirstFrameIs(vstart);
      while p + PGSIZE <= vend
        invariant p == Address(f) && FirstFrame(vstart) <= f && (f == FirstFrame(vstart) || f <= LastFrame(vend))
        invariant Valid() && mem.Keys == old(mem).Keys && |free| == |old(free)| + (f - FirstFrame(vstart))
        invariant forall g :: g in FreeSet() <==> g in old(FreeSet()) || FirstFrame(vstart) <= g < f
        invariant forall g :: g in mem && !(FirstFrame(vstart) <= g < LastFrame(vend)) ==> mem[g] == old(mem)[g]
        decreases vend - p
      {
        FrameAtAddress(f);
        assert f < LastFrame(vend);
        assert f in old(mem) && f !in old(FreeSet());
        assert f !in FreeSet();
        Kfree(FrameAt(p));
        p, f := p + PGSIZE, f + 1;
      }
      forall g: nat ensures FirstFrame(vstart) <= g < LastFrame(vend) <==> vstart <= Address(g) && Address(g) + PGSIZE <= vend { WhollyInside(vstart, vend, g); }
    }

    /** kalloc. */
    method Kalloc() returns (f: Option<nat>)
      requires Valid()
      modifies this`freelist, this`free
      ensures Valid() && (f.None? <==> old(free) == [])
      ensures f.None? ==> free == old(free)
      ensures f.Some? ==> |old(free)| == |free| + 1
      ensures f.Some? ==> f.value in mem && f.value !in free && f.value in old(FreeSet()) && FreeSet() + {f.value} == old(FreeSet())
    {
      if freelist == 0 {
        return None;
      }
      ChainPop(mem, freelist, free);
      FrameAtAddress(free[0]);
      assert LinkOk(mem, free, 0);
      var r := FrameAt(freelist);
      freelist := mem[r][0];
      assert free == [r] + free[1..];
      free := free[1..];
      return Some(r);
    }

    /** kfree. */
    method Kfree(f: nat)
      requires Valid() && f in mem && f !in free
      modifies this
      ensures Valid() && mem.Keys == old(mem).Keys && FreeSet() == old(FreeSet()) + {f} && |free| == |old(free)| + 1
      ensures forall g :: g in mem && g != f ==> mem[g] == old(mem)[g]
      ensures forall i :: 1 <= i < ENTRIES ==> mem[f][i] == JUNK
    {
      ghost var m := mem;
      mem := mem[f := seq(ENTRIES, i => JUNK)];
      mem := mem[f := mem[f][0 := freelist]];
      ChainPush(m, mem, freelist, free, f);
      freelist := Address(f);
      free := [f] + free;
    }

    /** Since memory m with n free frames, each new page table of d has cost one frame, table x is
        there, and `more` frames have gone elsewhere. */
    ghost predicate Charged(d: nat, x: nat, m: Memory, n: nat, more: nat)
      reads this
    {
      d in m && d in mem && Tables(mem, d) == Tables(m, d) + {x} && |free| + |Tables(mem, d)| + more == n + |Tables(m, d)|
    }

    /** walkpgdir with alloc: the frame of the page table for virtual page v. */
    method Walk(d: nat, v: nat, ghost owner: map<nat, Use>) returns (t: Option<nat>, ghost now: map<nat, Use>)
      requires Valid() && Space(mem, d, owner) && FreeSet() !! owner.Keys && v < ALLPAGES
      modifies this
      ensures Valid() && Space(mem, d, now) && Split(FreeSet(), now, old(FreeSet()) + owner.Keys)
      ensures Untouched(old(mem), mem, owner, old(FreeSet()))
      ensures forall u :: 0 <= u < ALLPAGES ==> Pte(mem, d, u) == Pte(old(mem), d, u)
      ensures forall f :: f in now ==> (f in owner && now[f] == owner[f]) || (f in old(FreeSet()) && now[f].Table?)
      ensures forall f :: f in owner ==> f in now && now[f] == owner[f]
      ensures t.None? ==> now == owner && mem == old(mem) && free == old(free) == [] && NoTable(mem, d, v)
      ensures t.Some? ==> Charged(d, v / ENTRIES, old(mem), |old(free)|, 0)
      ensures t.Some? ==> Present(mem[d][v / ENTRIES]) && t.value == FrameOf(mem[d][v / ENTRIES]) && t.value in mem && t.value in now && now[t.value].Table?
      ensures t.Some? ==> Writable(mem[d][v / ENTRIES]) && ForUser(mem[d][v / ENTRIES])
      ensures d in mem && Directory(old(mem)[d], mem[d], v / ENTRIES)
    {
      now := owner;
      var x := v / ENTRIES;
      assert PdeOk(mem, d, owner, x);
      if Present(mem[d][x]) {
        assert Tables(mem, d) == Tables(mem, d) + {x};
        return Some(FrameOf(mem[d][x])), now;
      }
      var p := Kalloc();
      if p.None? {
        return None, now;
      }
      ghost var m := mem;
      mem := mem[p.value := Zeros()];
      mem := mem[d := mem[d][x := Entry(p.value, 7)]];
      AddTable(m, d, owner, x, p.value, mem);
      ChainFrame(m, mem, freelist, free);
      now := owner[p.value := Table(x)];
      return p, now;
    }

    /** The turn of mappages' loop for a user page, given a frame of its own. */
    method MapUserPage(d: nat, v: nat, f: nat, perm: nat, ghost owner: map<nat, Use>) returns (ok: bool, ghost now: map<nat, Use>)
      requires Valid() && Space(mem, d, owner) && FreeSet() !! owner.Keys && v < USERPAGES && !Present(Pte(mem, d, v))
      requires f in mem && f !in owner && f !in free && perm < PGSIZE
      modifies this
      ensures Valid() && Space(mem, d, now) && Untouched(old(mem), mem, owner, old(FreeSet()))
      ensures ok ==> Split(FreeSet(), now, old(FreeSet()) + owner.Keys + {f}) && f in now && now[f] == User(v)
      ensures ok ==> forall u :: 0 <= u < ALLPAGES ==> Pte(mem, d, u) == if u == v then Entry(f, perm) else Pte(old(mem), d, u)
      ensures ok ==> Charged(d, v / ENTRIES, old(mem), |old(free)|, 0)
      ensures !ok ==> now == owner && mem == old(mem) && free == old(free) == [] && NoTable(mem, d, v)
      ensures forall g :: g in owner ==> g in now && now[g] == owner[g]
    {
      var t;
      t, now := Walk(d, v, owner);
      if t.None? {
        return false, now;
      }
      ghost var m, was := mem, now;
      mem := mem[t.value := mem[t.value][v % ENTRIES := Entry(f, perm)]];
      MapUser(m, d, was, v, f, perm);
      now := was[f := User(v)];
      forall u | 0 <= u < ALLPAGES ensures Pte(mem, d, u) == if u == v then Entry(f, perm) else Pte(m, d, u) {
        PutPte(m, d, was, v, Entry(f, perm), u);
      }
      assert mem[d] == m[d];
      ChainFrame(m, mem, freelist, free);
      ok := true;
    }

    /** The turn of mappages' loop for a kernel page, whose frame belongs to no space. */
    method MapKernelPage(d: nat, v: nat, f: nat, perm: nat, ghost owner: map<nat, Use>) returns (ok: bool, ghost now: map<nat, Use>)
      requires Valid() && Space(mem, d, owner) && FreeSet() !! owner.Keys && USERPAGES <= v < ALLPAGES && perm < PGSIZE
      requires !Present(Pte(mem, d, v))
      modifies this
      ensures Valid() && Space(mem, d, now) && Untouched(old(mem), mem, owner, old(FreeSet()))
      ensures Split(FreeSet(), now, old(FreeSet()) + owner.Keys)
      ensures forall g :: g in now ==> (g in owner && now[g] == owner[g]) || (g in old(FreeSet()) && now[g].Table?)
      ensures ok ==> forall u :: 0 <= u < ALLPAGES ==> Pte(mem, d, u) == if u == v then Entry(f, perm) else Pte(old(mem), d, u)
      ensures ok ==> Charged(d, v / ENTRIES, old(mem), |old(free)|, 0)
      ensures !ok ==> mem == old(mem) && free == old(free) == [] && NoTable(mem, d, v)
    {
      var t;
      t, now := Walk(d, v, owner);
      if t.None? {
        return false, now;
      }
      ghost var m := mem;
      mem := mem[t.value := mem[t.value][v % ENTRIES := Entry(f, perm)]];
      MapKernel(m, d, now, v, Entry(f, perm));
      forall u | 0 <= u < ALLPAGES ensures Pte(mem, d, u) == if u == v then Entry(f, perm) else Pte(m, d, u) {
        PutPte(m, d, now, v, Entry(f, perm), u);
      }
      assert mem[d] == m[d];
      ChainFrame(m, mem, freelist, free);
      ok := true;
    }

    /** A space under construction holds only frames that were free, and no user page. */
    ghost predicate Building(d: nat, owner: map<nat, Use>, m0: Memory, free0: set<nat>)
      reads this
    {
      && Valid() && Space(mem, d, owner) && Split(FreeSet(), owner, free0) && mem.Keys == m0.Keys
      && (forall g :: g in m0 && g !in free0 ==> mem[g] == m0[g])
    }

    /** Of n free frames, one went to the directory and one to each page table, and none of these
        is empty. */
    ghost predicate Spent(d: nat, n: nat)
      reads this
    {
      NoEmptyTable(mem, d) && |free| + 1 + |Tables(mem, d)| == n
    }

    /** One kernel page more; it fails only for want of a frame for its page table. */
    method MapNext(d: nat, v: nat, f: nat, perm: nat, ghost owner: map<nat, Use>, ghost m0: Memory, ghost free0: set<nat>, ghost n: nat)
        returns (ok: bool, ghost now: map<nat, Use>)
      requires Building(d, owner, m0, free0) && USERPAGES <= v < ALLPAGES && perm < PGSIZE && !Present(Pte(mem, d, v))
      requires Spent(d, n)
      modifies this
      ensures Building(d, now, m0, free0) && Spent(d, n)
      ensures ok ==> forall u :: 0 <= u < ALLPAGES ==> Pte(mem, d, u) == if u == v then Entry(f, perm) else Pte(old(mem), d, u)
      ensures !ok ==> mem == old(mem) && free == [] && NoTable(mem, d, v)
    {
      ok, now := MapKernelPage(d, v, f, perm, owner);
      if ok {
        StillUsed(old(mem), mem, d, v);
      }
    }

    /** mappages over a row of kmap; it fails only for want of a frame for the page table of one
        of the row's pages. */
    method MapRange(d: nat, r: Range, ghost owner: map<nat, Use>, ghost m0: Memory, ghost free0: set<nat>, ghost n: nat)
        returns (ok: bool, ghost now: map<nat, Use>)
      requires Building(d, owner, m0, free0) && RangeOk(r) && forall u :: r.v <= u < r.v + r.count ==> !Present(Pte(mem, d, u))
      requires Spent(d, n)
      modifies this
      ensures Building(d, now, m0, free0) && Spent(d, n) && Elsewhere(old(mem), mem, d, r)
      ensures ok ==> Mapped(mem, d, r, r.count)
      ensures !ok ==> free == [] && exists v: nat :: InRange(r, v) && NoTable(mem, d, v)
    {
      now := owner;
      ok := true;
      var k := 0;
      while k < r.count
        invariant 0 <= k <= r.count && Building(d, now, m0, free0) && ok && Spent(d, n)
        invariant Mapped(mem, d, r, k) && Elsewhere(old(mem), mem, d, r)
        invariant forall u :: r.v + k <= u < r.v + r.count ==> !Present(Pte(mem, d, u))
      {
        ok, now := MapNext(d, r.v + k, r.frame + k, r.perm, now, m0, free0, n);
        if !ok {
          assert InRange(r, r.v + k);
          return;
        }
        k := k + 1;
      }
    }

    /** setupkvm: a space with the kernel's mappings and no user page, if there are frames for the
        directory and for each page table.  Otherwise, unless there was none at all, every frame
        taken, which is every frame there was, is lost. */
    method SetupKvm(kmap: seq<Range>) returns (d: Option<nat>, ghost owner: map<nat, Use>)
      requires Valid() && Rows(kmap)
      modifies this
      ensures Valid() && Split(FreeSet(), owner, old(FreeSet())) && mem.Keys == old(mem).Keys
      ensures forall g :: g in mem && g !in old(FreeSet()) ==> mem[g] == old(mem)[g]
      ensures d.Some? <==> |old(free)| >= 1 + |KernelTables(kmap)|
      ensures d.Some? ==> Building(d.value, owner, old(mem), old(FreeSet())) && KernelOnly(mem, d.value, kmap, |kmap|)
      ensures d.Some? ==> Tables(mem, d.value) == KernelTables(kmap) && |free| + 1 + |KernelTables(kmap)| == |old(free)|
      ensures d.None? ==> free == [] && owner.Keys == old(FreeSet())
    {
      ghost var m0, free0, n := mem, FreeSet(), |free|;
      d, owner := NewDirectory(kmap);
      if d.None? {
        return;
      }
      for k := 0 to |kmap|
        invariant d.Some? && RowsDone(d.value, owner, kmap, k, m0, free0, n)
      {
        var ok;
        ok, owner := MapRow(d.value, kmap, k, owner, m0, free0, n);
        if !ok {
          return None, owner;
        }
      }
      TablesOfRows(mem, d.value, kmap);
    }

    /** kalloc and memset of the directory. */
    method NewDirectory(ghost kmap: seq<Range>) returns (d: Option<nat>, ghost owner: map<nat, Use>)
      requires Valid() && Rows(kmap)
      modifies this`mem, this`freelist, this`free
      ensures d.None? ==> old(free) == free == [] && mem == old(mem) && Valid() && owner == map[]
      ensures d.Some? ==> RowsDone(d.value, owner, kmap, 0, old(mem), old(FreeSet()), |old(free)|)
    {
      d := Kalloc();
      if d.None? {
        owner := map[];
        return;
      }
      Clear(d.value);
      EmptySpace(mem, d.value);
      owner := map[d.value := Dir];
      assert Tables(mem, d.value) == {};
    }

    /** setupkvm has mapped the first k rows. */
    ghost predicate RowsDone(d: nat, owner: map<nat, Use>, kmap: seq<Range>, k: nat, m0: Memory, free0: set<nat>, n: nat)
      reads this
    {
      Building(d, owner, m0, free0) && KernelOnly(mem, d, kmap, k) && Spent(d, n)
    }

    /** The turn of setupkvm's loop. */
    method MapRow(d: nat, kmap: seq<Range>, k: nat, ghost owner: map<nat, Use>, ghost m0: Memory, ghost free0: set<nat>, ghost n: nat)
        returns (ok: bool, ghost now: map<nat, Use>)
      requires k < |kmap| && RowsDone(d, owner, kmap, k, m0, free0, n)
      modifies this
      ensures ok ==> RowsDone(d, now, kmap, k + 1, m0, free0, n)
      ensures !ok ==> Building(d, now, m0, free0) && free == [] && n < 1 + |KernelTables(kmap)|
    {
      ghost var m := mem;
      NextRow(m, d, kmap, k);
      ok, now := MapRange(d, kmap[k], owner, m0, free0, n);
      if ok {
        RowDone(m, mem, d, kmap, k);
      } else {
        RowFailed(m, mem, d, kmap, k);
      }
    }

    /** memset(page, 0, PGSIZE). */
    method Clear(f: nat)
      requires Valid() && f in mem && f !in free
      modifies this`mem
      ensures Valid() && mem == old(mem)[f := Zeros()]
    {
      ghost var m := mem;
      mem := mem[f := Zeros()];
      ChainFrame(m, mem, freelist, free);
    }
  }

  /** There is no page table for page v. */
  ghost predicate NoTable(m: Memory, d: nat, v: nat)
  {
    d in m && v < ALLPAGES && !Present(m[d][v / ENTRIES])
  }

  /** Page table x has a mapped page. */
  ghost predicate UsedTable(m: Memory, d: nat, x: nat)
    requires d in m
  {
    exists u :: 0 <= u < ALLPAGES && Present(Pte(m, d, u)) && u / ENTRIES == x
  }

  /** No page table is there for nothing. */
  ghost predicate NoEmptyTable(m: Memory, d: nat)
  {
    d in m && forall x :: x in Tables(m, d) ==> UsedTable(m, d, x)
  }

  lemma StillUsed(m: Memory, n: Memory, d: nat, v: nat)
    requires NoEmptyTable(m, d) && v < ALLPAGES && d in n && Tables(n, d) == Tables(m, d) + {v / ENTRIES}
    requires Present(Pte(n, d, v)) && forall u :: 0 <= u < ALLPAGES && u != v ==> Pte(n, d, u) == Pte(m, d, u)
    ensures NoEmptyTable(n, d)
  {
    forall x | x in Tables(n, d) ensures UsedTable(n, d, x) {
      if x != v / ENTRIES {
        var u :| 0 <= u < ALLPAGES && Present(Pte(m, d, u)) && u / ENTRIES == x;
        assert Present(Pte(n, d, u));
      }
    }
  }

  /** The page tables the rows need. */
  ghost function KernelTables(kmap: seq<Range>): (s: set<nat>)
    ensures forall x :: x in s <==> 0 <= x < ENTRIES && NeedsTable(kmap, x)
  {
    set x | 0 <= x < ENTRIES && NeedsTable(kmap, x)
  }

  ghost predicate NeedsTable(kmap: seq<Range>, x: nat)
  {
    exists u: nat :: InRows(kmap, u) && u / ENTRIES == x
  }

  ghost predicate InRows(kmap: seq<Range>, u: nat)
  {
    u < ALLPAGES && exists j :: 0 <= j < |kmap| && InRange(kmap[j], u)
  }

  /** Where all rows are mapped, and nothing else, the page tables are those the rows need. */
  lemma TablesOfRows(m: Memory, d: nat, kmap: seq<Range>)
    requires KernelOnly(m, d, kmap, |kmap|) && NoEmptyTable(m, d)
    ensures Tables(m, d) == KernelTables(kmap)
  {
    forall x | x in Tables(m, d) ensures x in KernelTables(kmap) {
      var u :| 0 <= u < ALLPAGES && Present(Pte(m, d, u)) && u / ENTRIES == x;
      assert InRows(kmap, u);
    }
    forall x | x in KernelTables(kmap) ensures x in Tables(m, d) {
      var u: nat :| InRows(kmap, u) && u / ENTRIES == x;
      var j :| 0 <= j < |kmap| && InRange(kmap[j], u);
      assert Mapped(m, d, kmap[j], kmap[j].count) && Present(Pte(m, d, u));
    }
  }

  /** Where only pages of the rows are mapped, and one of them has no table, there are fewer. */
  lemma TablesTooFew(m: Memory, d: nat, kmap: seq<Range>, v: nat)
    requires NoEmptyTable(m, d) && InRows(kmap, v) && NoTable(m, d, v)
    requires forall u :: 0 <= u < ALLPAGES && Present(Pte(m, d, u)) ==> InRows(kmap, u)
    ensures |Tables(m, d)| < |KernelTables(kmap)|
  {
    forall x | x in Tables(m, d) ensures x in KernelTables(kmap) {
      var u :| 0 <= u < ALLPAGES && Present(Pte(m, d, u)) && u / ENTRIES == x;
      assert InRows(kmap, u);
    }
    assert v / ENTRIES in KernelTables(kmap) && v / ENTRIES !in Tables(m, d);
    FewerTables(Tables(m, d), KernelTables(kmap));
  }

  lemma FewerTables(s: set<nat>, t: set<nat>)
    requires s < t
    ensures |s| < |t|
  {
    var x :| x in t && x !in s;
    SubsetCount(s, t - {x});
  }

  ghost predicate RangeOk(r: Range)
  {
    r.count >= 1 && USERPAGES <= r.v && r.v + r.count <= ALLPAGES && r.perm < PGSIZE
  }

  ghost predicate Mapped(m: Memory, d: nat, r: Range, k: nat)
  {
    d in m && RangeOk(r) && k <= r.count && forall u :: r.v <= u < r.v + k ==> Pte(m, d, u) == Entry(r.frame + (u - r.v), r.perm)
  }

  ghost predicate InRange(r: Range, u: nat)
  {
    r.v <= u < r.v + r.count
  }

  /** Outside the row the pages are mapped as before. */
  ghost predicate Elsewhere(m: Memory, n: Memory, d: nat, r: Range)
  {
    d in m && d in n && forall u :: 0 <= u < ALLPAGES && !InRange(r, u) ==> Pte(n, d, u) == Pte(m, d, u)
  }

  /** The rows of kmap do not overlap. */
  ghost predicate Rows(kmap: seq<Range>)
  {
    && (forall k :: 0 <= k < |kmap| ==> RangeOk(kmap[k]))
    && (forall j, k, u: nat :: 0 <= j < k < |kmap| && InRange(kmap[j], u) ==> !InRange(kmap[k], u))
  }

  /** Exactly the first n rows are mapped. */
  ghost predicate KernelOnly(m: Memory, d: nat, kmap: seq<Range>, n: nat)
  {
    && d in m && n <= |kmap| && Rows(kmap)
    && (forall j :: 0 <= j < n ==> Mapped(m, d, kmap[j], kmap[j].count))
    && (forall u :: 0 <= u < ALLPAGES && (forall j :: 0 <= j < n ==> !InRange(kmap[j], u)) ==> !Present(Pte(m, d, u)))
  }

  lemma NextRow(m: Memory, d: nat, kmap: seq<Range>, k: nat)
    requires KernelOnly(m, d, kmap, k) && k < |kmap|
    ensures RangeOk(kmap[k]) && forall u :: kmap[k].v <= u < kmap[k].v + kmap[k].count ==> !Present(Pte(m, d, u))
  {
    forall u | kmap[k].v <= u < kmap[k].v + kmap[k].count ensures !Present(Pte(m, d, u)) {
      assert InRange(kmap[k], u);
    }
  }

  lemma RowDone(m: Memory, n: Memory, d: nat, kmap: seq<Range>, k: nat)
    requires KernelOnly(m, d, kmap, k) && k < |kmap| && Mapped(n, d, kmap[k], kmap[k].count) && Elsewhere(m, n, d, kmap[k])
    ensures KernelOnly(n, d, kmap, k + 1)
  {
    forall j | 0 <= j < k ensures Mapped(n, d, kmap[j], kmap[j].count) {
      assert Mapped(m, d, kmap[j], kmap[j].count);
      forall u | kmap[j].v <= u < kmap[j].v + kmap[j].count ensures Pte(n, d, u) == Pte(m, d, u) {
        assert InRange(kmap[j], u);
      }
    }
  }

  lemma RowFailed(m: Memory, n: Memory, d: nat, kmap: seq<Range>, k: nat)
    requires KernelOnly(m, d, kmap, k) && k < |kmap| && Elsewhere(m, n, d, kmap[k]) && NoEmptyTable(n, d)
    requires exists v: nat :: InRange(kmap[k], v) && NoTable(n, d, v)
    ensures |Tables(n, d)| < |KernelTables(kmap)|
  {
    var v: nat :| InRange(kmap[k], v) && NoTable(n, d, v);
    forall u | 0 <= u < ALLPAGES && Present(Pte(n, d, u)) ensures InRows(kmap, u) {
      if !InRange(kmap[k], u) { assert Present(Pte(m, d, u)); }
    }
    TablesTooFew(n, d, kmap, v);
  }

  /** The pages from KERNBASE on are those of the rows and no others. */
  ghost predicate KernelHalf(m: Memory, d: nat, kmap: seq<Range>)
  {
    d in m && Rows(kmap) && forall u :: USERPAGES <= u < ALLPAGES ==> RowEntry(m, d, kmap, u)
  }

  ghost predicate RowEntry(m: Memory, d: nat, kmap: seq<Range>, u: nat)
    requires d in m && Rows(kmap) && u < ALLPAGES
  {
    && (forall j :: 0 <= j < |kmap| && InRange(kmap[j], u) ==> Pte(m, d, u) == Entry(kmap[j].frame + (u - kmap[j].v), kmap[j].perm))
    && ((forall j :: 0 <= j < |kmap| ==> !InRange(kmap[j], u)) ==> !Present(Pte(m, d, u)))
  }

  lemma {:induction false} KernelOnlyHalf(m: Memory, d: nat, kmap: seq<Range>)
    requires KernelOnly(m, d, kmap, |kmap|)
    ensures KernelHalf(m, d, kmap)
  {
    forall u | USERPAGES <= u < ALLPAGES ensures RowEntry(m, d, kmap, u) {
      forall j | 0 <= j < |kmap| && InRange(kmap[j], u) ensures Pte(m, d, u) == Entry(kmap[j].frame + (u - kmap[j].v), kmap[j].perm) {
        assert Mapped(m, d, kmap[j], kmap[j].count);
      }
    }
  }

  /** With rows that are not for the user, no user code gets at a page from KERNBASE on. */
  lemma {:induction false} KernelIsHidden(m: Memory, d: nat, owner: map<nat, Use>, kmap: seq<Range>, u: nat)
    requires Space(m, d, owner) && KernelHalf(m, d, kmap) && USERPAGES <= u < ALLPAGES
    requires forall j :: 0 <= j < |kmap| ==> !ForUser(kmap[j].perm)
    ensures Translate(m, d, u).Fault? || !Translate(m, d, u).user
  {
    TableDecides(m, d, owner, u);
    assert RowEntry(m, d, kmap, u);
    if Present(Pte(m, d, u)) {
      var j :| 0 <= j < |kmap| && InRange(kmap[j], u);
      assert RangeOk(kmap[j]);
      EntryBits(kmap[j].frame + (u - kmap[j].v), kmap[j].perm);
    }
  }

  lemma NoUserPage(m: Memory, d: nat, kmap: seq<Range>, v: nat)
    requires KernelOnly(m, d, kmap, |kmap|) && v < USERPAGES
    ensures !Present(Pte(m, d, v))
  {
    forall j | 0 <= j < |kmap| ensures !InRange(kmap[j], v) { assert RangeOk(kmap[j]); }
  }
}
