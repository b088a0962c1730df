/** Copying and freeing whole address spaces: copyuvm, deallocuvm and freevm of vm.c. */
module AddressSpaces {
  import opened Wrappers
  import opened PageTables
  import opened VirtualMemory

  /** The user pages [lo, hi) belong to the space no more. */
  ghost predicate Shrunk(owner: map<nat, Use>, now: map<nat, Use>, lo: nat, hi: nat)
  {
    && (forall f :: f in now ==> f in owner && now[f] == owner[f])
    && (forall f :: f in owner ==> (f in now <==> !(owner[f].User? && lo <= owner[f].v < hi)))
  }

  /** Frames outside the space hold what they held. */
  ghost predicate OthersKeep(m: Memory, n: Memory, owner: map<nat, Use>)
  {
    n.Keys == m.Keys && forall g :: g in m && g !in owner ==> n[g] == m[g]
  }

  /** kfree(p2v(PTE_ADDR(*pte))), *pte = 0. */
  method FreeUserPage(k: Kernel, d: nat, v: nat, ghost owner: map<nat, Use>) returns (ghost now: map<nat, Use>)
    requires k.Valid() && Space(k.mem, d, owner) && k.FreeSet() !! owner.Keys && v < USERPAGES && Present(Pte(k.mem, d, v))
    modifies k
    ensures k.Valid() && Space(k.mem, d, now) && Split(k.FreeSet(), now, old(k.FreeSet()) + owner.Keys)
    ensures Shrunk(owner, now, v, v + 1) && OthersKeep(old(k.mem), k.mem, owner) && k.mem[d] == old(k.mem)[d]
    ensures forall u :: 0 <= u < USERPAGES ==> Pte(k.mem, d, u) == if u == v then 0 else Pte(old(k.mem), d, u)
  {
    ghost var m := k.mem;
    Unmap(m, d, owner, v);
    var t := FrameOf(k.mem[d][v / ENTRIES]);
    var f := FrameOf(k.mem[t][v % ENTRIES]);
    assert UsedFor(m, d, owner, f) && PdeOk(m, d, owner, v / ENTRIES);
    now := owner - {f};
    assert t in owner && t != f && d != f;
    k.Kfree(f);
    Clear(k, t, v % ENTRIES);
    ghost var n := Put(m, d, v, 0);
    forall g | g in now ensures k.mem[g] == n[g] { }
    SpaceFrame(n, k.mem, d, now);
    forall u | 0 <= u < USERPAGES ensures Pte(k.mem, d, u) == if u == v then 0 else Pte(m, d, u) {
      PutPte(m, d, owner, v, 0, u);
    }
    forall g | g in owner && g != f ensures owner[g] != User(v) { assert UsedFor(m, d, owner, g); }
  }

  /** One word of a page that is not free. */
  method Clear(k: Kernel, t: nat, i: nat)
    requires k.Valid() && t in k.mem && t !in k.free && i < ENTRIES
    modifies k`mem
    ensures k.Valid() && k.mem == old(k.mem)[t := old(k.mem)[t][i := 0]]
  {
    ghost var m := k.mem;
    k.mem := k.mem[t := k.mem[t][i := 0]];
    ChainFrame(m, k.mem, k.freelist, k.free);
  }

  /** Where deallocuvm finds its first page table: a missing one moves it on by a whole table's
      worth of pages from wherever it stands. */
  function Landing(m: Memory, d: nat, a: nat, hi: nat): (r: nat)
    requires d in m && hi <= USERPAGES
    ensures a <= r && (r < hi ==> Present(m[d][r / ENTRIES]))
    decreases USERPAGES + ENTRIES - a
  {
    if a < hi && !Present(m[d][a / ENTRIES]) then Landing(m, d, a + ENTRIES, hi) else a
  }

  /** deallocuvm over the pages [lo, hi): exactly the mapped pages from its first page table on
      are freed. */
  method DeallocUvm(k: Kernel, d: nat, lo: nat, hi: nat, ghost owner: map<nat, Use>) returns (ghost now: map<nat, Use>)
    requires k.Valid() && Space(k.mem, d, owner) && k.FreeSet() !! owner.Keys && hi <= USERPAGES
    modifies k
    ensures k.Valid() && Space(k.mem, d, now) && Split(k.FreeSet(), now, old(k.FreeSet()) + owner.Keys)
    ensures Shrunk(owner, now, Landing(old(k.mem), d, lo, hi), hi)
    ensures OthersKeep(old(k.mem), k.mem, owner) && k.mem[d] == old(k.mem)[d]
  {
    now := owner;
    var a := lo;
    ghost var m0, free0, land := k.mem, k.FreeSet(), Landing(k.mem, d, lo, hi);
    while a < hi
      invariant lo <= a && Shrinking(k, d, owner, now, land, Reached(land, a, hi), m0, free0) && OnCourse(m0, d, land, a, hi)
      decreases USERPAGES + ENTRIES - a
    {
      a, now := DeallocTurn(k, d, a, hi, land, owner, now, m0, free0);
    }
  }

  /** The turn of deallocuvm's loop. */
  method DeallocTurn(k: Kernel, d: nat, a: nat, ghost hi: nat, ghost land: nat, ghost owner: map<nat, Use>, ghost was: map<nat, Use>, ghost m0: Memory, ghost free0: set<nat>)
      returns (b: nat, ghost now: map<nat, Use>)
    requires Shrinking(k, d, owner, was, land, Reached(land, a, hi), m0, free0) && OnCourse(m0, d, land, a, hi) && a < hi
    modifies k
    ensures a < b <= a + ENTRIES
    ensures Shrinking(k, d, owner, now, land, Reached(land, b, hi), m0, free0) && OnCourse(m0, d, land, b, hi)
  {
    if !Present(k.mem[d][a / ENTRIES]) {
      b, now := a + ENTRIES, was;
      OverTable(k.mem, m0, d, owner, was, land, a, b, hi);
      return;
    }
    NextOnCourse(m0, d, land, a, hi);
    b := a + 1;
    now := FreeIfMapped(k, d, a, land, owner, was, m0, free0);
  }

  /** The loop of deallocuvm stands at a: before its first page table, or past it, at a table's
      first page or inside a table. */
  ghost predicate OnCourse(m: Memory, d: nat, land: nat, a: nat, hi: nat)
  {
    d in m && hi <= USERPAGES &&
    if a <= land then Landing(m, d, a, hi) == land else a < hi ==> a % ENTRIES == 0 || Present(m[d][a / ENTRIES])
  }

  /** A step over a missing page table. */
  lemma OverTable(m: Memory, m0: Memory, d: nat, owner: map<nat, Use>, now: map<nat, Use>, land: nat, a: nat, b: nat, hi: nat)
    requires b == a + ENTRIES && d in m0 && Space(m, d, now) && m[d] == m0[d] && Shrunk(owner, now, land, Reached(land, a, hi))
    requires a < hi && OnCourse(m0, d, land, a, hi) && !Present(m[d][a / ENTRIES])
    ensures Shrunk(owner, now, land, Reached(land, b, hi)) && OnCourse(m0, d, land, b, hi)
  {
    if a > land {
      SkipTable(m, d, owner, now, land, a, hi);
      NextTable(a);
    }
  }

  /** How far the pages from `land` on are done when the loop stands at a. */
  function Reached(land: nat, a: nat, hi: nat): (r: nat)
  {
    if a <= land then land else if a < hi then a else hi
  }

  /** All pages of [lo, hi) are freed if and only if none of those before the first page table
      is mapped. */
  lemma FreesAllIff(m: Memory, d: nat, owner: map<nat, Use>, now: map<nat, Use>, lo: nat, hi: nat)
    requires Space(m, d, owner) && hi <= USERPAGES && Shrunk(owner, now, Landing(m, d, lo, hi), hi)
    ensures Shrunk(owner, now, lo, hi) <==> forall v :: lo <= v < Landing(m, d, lo, hi) && v < hi ==> !Present(Pte(m, d, v))
  {
    var land := Landing(m, d, lo, hi);
    if forall v :: lo <= v < land && v < hi ==> !Present(Pte(m, d, v)) {
      forall f | f in owner && owner[f].User? && lo <= owner[f].v < hi ensures f !in now { assert UsedFor(m, d, owner, f); }
    } else {
      var v :| lo <= v < land && v < hi && Present(Pte(m, d, v));
      assert PteOk(m, d, owner, v);
      assert FrameOf(Pte(m, d, v)) in now;
    }
  }

  /** That is so for every start at a table's first page, or inside a table that exists. */
  lemma {:induction false} GoodStart(m: Memory, d: nat, lo: nat, hi: nat, v: nat)
    requires d in m && hi <= USERPAGES && (lo % ENTRIES == 0 || lo >= hi || Present(m[d][lo / ENTRIES]))
    requires lo <= v < Landing(m, d, lo, hi) && v < hi
    ensures !Present(Pte(m, d, v))
    decreases USERPAGES + ENTRIES - lo
  {
    SameTable(lo, v);
    if v >= lo + ENTRIES {
      NextTable(lo);
      GoodStart(m, d, lo + ENTRIES, hi, v);
    }
  }

  /** A start inside a missing table can step over a mapped page: from page 1, with no table for
      the first 1024 pages, the loop goes on at page 1025 and page 1024 stays. */
  lemma BadStart(m: Memory, d: nat, owner: map<nat, Use>, now: map<nat, Use>, hi: nat)
    requires Space(m, d, owner) && ENTRIES + 1 <= hi <= USERPAGES
    requires !Present(m[d][0]) && Present(m[d][1]) && Present(Pte(m, d, ENTRIES))
    requires Shrunk(owner, now, Landing(m, d, 1, hi), hi)
    ensures Landing(m, d, 1, hi) == ENTRIES + 1 && !Shrunk(owner, now, 1, hi)
    ensures FrameOf(Pte(m, d, ENTRIES)) in now
  {
    assert PteOk(m, d, owner, ENTRIES);
    assert Landing(m, d, 1 + ENTRIES, hi) == ENTRIES + 1;
    FreesAllIff(m, d, owner, now, 1, hi);
  }

  /** Such an address space: directory 1, table 2, page 3. */
  lemma BadSpace() returns (m: Memory, owner: map<nat, Use>)
    ensures Space(m, 1, owner) && !Present(m[1][0]) && Present(m[1][1]) && Present(Pte(m, 1, ENTRIES))
  {
    m := map[1 := Zeros()[1 := Entry(2, 7)], 2 := Zeros()[0 := Entry(3, 7)], 3 := Zeros()];
    owner := map[1 := Dir, 2 := Table(1), 3 := User(ENTRIES)];
    forall v | 0 <= v < ALLPAGES ensures Present(Pte(m, 1, v)) <==> v == ENTRIES {
      if v / ENTRIES == 1 && v % ENTRIES == 0 { assert v == ENTRIES; }
    }
    forall v | 0 <= v < USERPAGES ensures PteOk(m, 1, owner, v) { }
  }

  /** deallocuvm has done the pages [lo, a), starting with memory m0 and free frames free0. */
  ghost predicate Shrinking(k: Kernel, d: nat, owner: map<nat, Use>, now: map<nat, Use>, lo: nat, a: nat, m0: Memory, free0: set<nat>)
    reads k
  {
    && k.Valid() && Space(k.mem, d, now) && Split(k.FreeSet(), now, free0 + owner.Keys)
    && Shrunk(owner, now, lo, a) && OthersKeep(m0, k.mem, owner) && d in m0 && k.mem[d] == m0[d]
  }

  /** The turn of deallocuvm's loop for a page whose table exists. */
  method FreeIfMapped(k: Kernel, d: nat, a: nat, ghost lo: nat, ghost owner: map<nat, Use>, ghost was: map<nat, Use>, ghost m0: Memory, ghost free0: set<nat>)
      returns (ghost now: map<nat, Use>)
    requires Shrinking(k, d, owner, was, lo, a, m0, free0) && lo <= a < USERPAGES && Present(k.mem[d][a / ENTRIES])
    modifies k
    ensures Shrinking(k, d, owner, now, lo, a + 1, m0, free0)
  {
    now := was;
    assert PdeOk(k.mem, d, now, a / ENTRIES);
    if Present(k.mem[FrameOf(k.mem[d][a / ENTRIES])][a % ENTRIES]) {
      now := FreeUserPage(k, d, a, was);
      ShrunkMore(owner, was, now, lo, a);
    } else {
      SkipPage(k.mem, d, owner, now, lo, a);
    }
  }

  lemma ShrunkMore(owner: map<nat, Use>, was: map<nat, Use>, now: map<nat, Use>, lo: nat, a: nat)
    requires Shrunk(owner, was, lo, a) && Shrunk(was, now, a, a + 1) && lo <= a
    ensures Shrunk(owner, now, lo, a + 1)
  {
  }

  lemma SkipPage(m: Memory, d: nat, owner: map<nat, Use>, now: map<nat, Use>, lo: nat, a: nat)
    requires Space(m, d, now) && Shrunk(owner, now, lo, a) && lo <= a < USERPAGES && !Present(Pte(m, d, a))
    ensures Shrunk(owner, now, lo, a + 1)
  {
    forall f | f in now ensures now[f] != User(a) { assert UsedFor(m, d, now, f); }
  }

  /** No page of a table that does not exist is mapped. */
  lemma SkipTable(m: Memory, d: nat, owner: map<nat, Use>, now: map<nat, Use>, lo: nat, a: nat, hi: nat)
    requires Space(m, d, now) && Shrunk(owner, now, lo, a) && lo <= a < hi <= USERPAGES && a % ENTRIES == 0 && !Present(m[d][a / ENTRIES])
    ensures Shrunk(owner, now, lo, if a + ENTRIES < hi then a + ENTRIES else hi)
  {
    forall f | f in now && now[f].User? ensures !(a <= now[f].v < a + ENTRIES) {
      assert UsedFor(m, d, now, f);
      SameTable(a, now[f].v);
    }
  }

  /** A step inside a page table. */
  lemma {:induction false} NextOnCourse(m: Memory, d: nat, land: nat, a: nat, hi: nat)
    requires OnCourse(m, d, land, a, hi) && a < hi && Present(m[d][a / ENTRIES])
    ensures land <= a < USERPAGES && OnCourse(m, d, land, a + 1, hi)
    ensures Reached(land, a, hi) == a && Reached(land, a + 1, hi) == a + 1
  {
    NextInTable(a);
  }

  lemma NextInTable(a: nat)
    ensures (a + 1) % ENTRIES == 0 || (a + 1) / ENTRIES == a / ENTRIES
  {
  }

  lemma NextTable(a: nat)
    ensures a % ENTRIES == 0 ==> (a + ENTRIES) % ENTRIES == 0
  {
  }

  lemma SameTable(a: nat, v: nat)
    requires a % ENTRIES == 0
    ensures a <= v < a + ENTRIES ==> v / ENTRIES == a / ENTRIES
  {
  }

  lemma FreesAllFromStart(m: Memory, d: nat, owner: map<nat, Use>, now: map<nat, Use>)
    requires Space(m, d, owner) && Shrunk(owner, now, Landing(m, d, 0, USERPAGES), USERPAGES)
    ensures Shrunk(owner, now, 0, USERPAGES)
  {
    forall v | 0 <= v < Landing(m, d, 0, USERPAGES) && v < USERPAGES ensures !Present(Pte(m, d, v)) {
      GoodStart(m, d, 0, USERPAGES, v);
    }
    FreesAllIff(m, d, owner, now, 0, USERPAGES);
  }

  /** freevm: every frame of the space is free again, and nothing else changes. */
  method FreeVm(k: Kernel, d: nat, ghost owner: map<nat, Use>)
    requires k.Valid() && Space(k.mem, d, owner) && k.FreeSet() !! owner.Keys
    modifies k
    ensures k.Valid() && k.FreeSet() == old(k.FreeSet()) + owner.Keys && OthersKeep(old(k.mem), k.mem, owner)
  {
    ghost var m := k.mem;
    ghost var now := DeallocUvm(k, d, 0, USERPAGES, owner);
    FreesAllFromStart(m, d, owner, now);
    NoUserFrames(k.mem, d, owner, now);
    FreeTables(k, d, now);
    k.Kfree(d);
  }

  lemma NoUserFrames(m: Memory, d: nat, owner: map<nat, Use>, now: map<nat, Use>)
    requires Space(m, d, now) && Shrunk(owner, now, 0, USERPAGES)
    ensures forall f :: f in now ==> now[f].Table? || f == d
  {
    forall f | f in now ensures now[f].Table? || f == d { assert UsedFor(m, d, now, f); }
  }

  /** The tables with an index below i. */
  ghost function TablesBelow(owner: map<nat, Use>, i: nat): (s: set<nat>)
  {
    set f | f in owner && owner[f].Table? && owner[f].x < i
  }

  /** freevm's loop over the directory. */
  method FreeTables(k: Kernel, d: nat, ghost owner: map<nat, Use>)
    requires k.Valid() && Space(k.mem, d, owner) && k.FreeSet() !! owner.Keys && forall f :: f in owner ==> owner[f].Table? || f == d
    modifies k
    ensures k.Valid() && k.FreeSet() + {d} == old(k.FreeSet()) + owner.Keys && d !in k.FreeSet()
    ensures OthersKeep(old(k.mem), k.mem, owner) && d in k.mem
  {
    ghost var m := k.mem;
    for i := 0 to ENTRIES
      invariant k.Valid() && k.FreeSet() == old(k.FreeSet()) + TablesBelow(owner, i) && OthersKeep(m, k.mem, owner)
      invariant d in k.mem && k.mem[d] == m[d]
    {
      TablesStep(m, d, owner, i);
      if Present(k.mem[d][i]) {
        k.Kfree(FrameOf(k.mem[d][i]));
      }
    }
    forall f | f in owner && f != d ensures f in TablesBelow(owner, ENTRIES) { assert UsedFor(m, d, owner, f); }
  }

  lemma TablesStep(m: Memory, d: nat, owner: map<nat, Use>, i: nat)
    requires Space(m, d, owner) && i < ENTRIES
    ensures !Present(m[d][i]) ==> TablesBelow(owner, i + 1) == TablesBelow(owner, i)
    ensures Present(m[d][i]) ==>
              var f := FrameOf(m[d][i]);
              f in m && f in owner && f != d && f !in TablesBelow(owner, i) && TablesBelow(owner, i + 1) == TablesBelow(owner, i) + {f}
  {
    assert PdeOk(m, d, owner, i);
    forall f | f in owner && owner[f] == Table(i) ensures Present(m[d][i]) && FrameOf(m[d][i]) == f { assert UsedFor(m, d, owner, f); }
  }

  // ---- copyuvm -----------------------------------------------------------------------------------

  /** The first n user pages of d are copies of p's: same contents, same flags. */
  ghost predicate Copied(m: Memory, p: nat, d: nat, n: nat)
  {
    p in m && d in m && n <= USERPAGES && forall v :: 0 <= v < n ==> PageCopied(m, p, d, v)
  }

  ghost predicate PageCopied(m: Memory, p: nat, d: nat, v: nat)
    requires p in m && d in m && v < USERPAGES
  {
    var a, b := Pte(m, p, v), Pte(m, d, v);
    Present(a) && Present(b) && FlagsOf(b) == FlagsOf(a) && FrameOf(a) in m && FrameOf(b) in m && m[FrameOf(b)] == m[FrameOf(a)]
  }

  /** A process sees its copy as the other sees the original. */
  lemma {:induction false} ViewsAgree(m: Memory, p: nat, parent: map<nat, Use>, d: nat, owner: map<nat, Use>, v: nat)
    requires Space(m, p, parent) && Space(m, d, owner) && v < USERPAGES && PageCopied(m, p, d, v)
    ensures ViewOf(m, d, v) == ViewOf(m, p, v) && ViewOf(m, p, v).View?
  {
    TableDecides(m, p, parent, v);
    TableDecides(m, d, owner, v);
    FlagBits(Pte(m, p, v));
    FlagBits(Pte(m, d, v));
  }

  /** The pages of d from KERNBASE on are mapped as before. */
  ghost predicate SameKernel(m: Memory, n: Memory, d: nat)
  {
    d in m && d in n && forall u :: USERPAGES <= u < ALLPAGES ==> Pte(n, d, u) == Pte(m, d, u)
  }

  lemma {:induction false} KernelStays(m: Memory, n: Memory, d: nat, kmap: seq<Range>)
    requires KernelHalf(m, d, kmap) && SameKernel(m, n, d)
    ensures KernelHalf(n, d, kmap)
  {
    forall u | USERPAGES <= u < ALLPAGES ensures RowEntry(n, d, kmap, u) { assert RowEntry(m, d, kmap, u); }
  }

  /** p and d are address spaces apart from each other and from the free frames; the first n user
      pages of d are copies of p's, and d has no others. */
  ghost predicate Partial(m: Memory, free: set<nat>, p: nat, parent: map<nat, Use>, d: nat, owner: map<nat, Use>, n: nat)
  {
    && Space(m, p, parent) && Space(m, d, owner) && parent.Keys !! owner.Keys && free !! parent.Keys && free !! owner.Keys
    && Copied(m, p, d, n)
    && (forall v :: n <= v < USERPAGES ==> !Present(Pte(m, d, v)))
  }

  /** A copied page stays copied when the frames of both copies do. */
  lemma StillCopied(m: Memory, r: Memory, p: nat, d: nat, v: nat)
    requires p in m && d in m && p in r && d in r && v < USERPAGES && PageCopied(m, p, d, v)
    requires Pte(r, p, v) == Pte(m, p, v) && Pte(r, d, v) == Pte(m, d, v)
    requires Agree(m, r, {FrameOf(Pte(m, p, v)), FrameOf(Pte(m, d, v))})
    ensures PageCopied(r, p, d, v)
  {
    var a, b := FrameOf(Pte(m, p, v)), FrameOf(Pte(m, d, v));
    assert a in {a, b} && b in {a, b};
  }

  /** A frame outside both spaces may be filled. */
  lemma FillKeeps(m: Memory, free: set<nat>, p: nat, parent: map<nat, Use>, d: nat, owner: map<nat, Use>, n: nat, f: nat, c: Page)
    requires Partial(m, free, p, parent, d, owner, n) && f in m && f !in parent && f !in owner
    ensures Partial(m[f := c], free, p, parent, d, owner, n)
    ensures forall v :: 0 <= v < ALLPAGES ==> Pte(m[f := c], p, v) == Pte(m, p, v)
    ensures SameKernel(m, m[f := c], d)
  {
    var r := m[f := c];
    SpaceFrame(m, r, p, parent);
    SpaceFrame(m, r, d, owner);
    forall v | 0 <= v < n ensures PageCopied(r, p, d, v) {
      assert PageCopied(m, p, d, v) && PteOk(m, p, parent, v) && PteOk(m, d, owner, v);
      StillCopied(m, r, p, d, v);
    }
  }

  /** Mapping the filled frame f as page n makes one page more. */
  lemma MapAddsCopy(m: Memory, r: Memory, free: set<nat>, less: set<nat>, p: nat, parent: map<nat, Use>, d: nat, owner: map<nat, Use>, now: map<nat, Use>, n: nat, f: nat)
    requires Partial(m, free, p, parent, d, owner, n) && n < USERPAGES && Untouched(m, r, owner, free)
    requires f in m && f !in parent && f !in owner && f !in free && Space(r, d, now) && now.Keys <= owner.Keys + free + {f}
    requires less <= free && less !! now.Keys
    requires Present(Pte(m, p, n)) && FrameOf(Pte(m, p, n)) in m && m[f] == m[FrameOf(Pte(m, p, n))]
    requires forall u :: 0 <= u < ALLPAGES ==> Pte(r, d, u) == if u == n then Entry(f, FlagsOf(Pte(m, p, n))) else Pte(m, d, u)
    ensures Partial(r, less, p, parent, d, now, n + 1)
  {
    forall g | g in parent ensures g in m && r[g] == m[g] { assert UsedFor(m, p, parent, g); }
    SpaceFrame(m, r, p, parent);
    forall v | 0 <= v < n ensures PageCopied(r, p, d, v) {
      assert PageCopied(m, p, d, v) && PteOk(m, p, parent, v) && PteOk(m, d, owner, v);
      StillCopied(m, r, p, d, v);
    }
    assert PteOk(m, p, parent, n);
    FlagsKept(Pte(m, p, n), f);
    assert PageCopied(r, p, d, n);
  }

  lemma FlagsKept(w: nat, f: nat)
    requires Present(w)
    ensures FlagsOf(Entry(f, FlagsOf(w))) == FlagsOf(w)
  {
    assert w == w / PGSIZE * PGSIZE + w % PGSIZE;
    assert w == 2 * (w / PGSIZE * 2048) + w % PGSIZE;
  }

  datatype CopyEnd = PageDone | OutOfPages | OutOfTables

  /** mem = kalloc(), memmove(mem, p2v(pa), PGSIZE). */
  method NewCopy(k: Kernel, p: nat, n: nat, w: nat, ghost d: nat, ghost parent: map<nat, Use>, ghost owner: map<nat, Use>) returns (f: Option<nat>)
    requires k.Valid() && Partial(k.mem, k.FreeSet(), p, parent, d, owner, n) && n < USERPAGES
    requires w == Pte(k.mem, p, n) && Present(w) && FrameOf(w) in k.mem && FrameOf(w) in parent
    modifies k
    ensures k.Valid() && Partial(k.mem, k.FreeSet(), p, parent, d, owner, n) && Pte(k.mem, p, n) == w && FrameOf(w) in k.mem
    ensures f.None? ==> k.mem == old(k.mem) && k.free == old(k.free) == []
    ensures SameKernel(old(k.mem), k.mem, d)
    ensures f.Some? ==> |old(k.free)| == |k.free| + 1 && f.value != d
    ensures f.Some? ==> f.value in old(k.FreeSet()) && k.FreeSet() == old(k.FreeSet()) - {f.value}
    ensures f.Some? ==> f.value in k.mem && k.mem == old(k.mem)[f.value := k.mem[f.value]] && k.mem[f.value] == k.mem[FrameOf(w)]
  {
    f := k.Kalloc();
    if f.Some? {
      NewFrame(k.mem, old(k.FreeSet()), k.FreeSet(), p, parent, d, owner, n, f.value, k.mem[FrameOf(w)]);
      Fill(k, f.value, k.mem[FrameOf(w)]);
    }
  }

  /** A frame just allocated belongs to neither space, and may be filled. */
  lemma {:induction false} NewFrame(m: Memory, was: set<nat>, free: set<nat>, p: nat, parent: map<nat, Use>, d: nat, owner: map<nat, Use>, n: nat, f: nat, c: Page)
    requires Partial(m, was, p, parent, d, owner, n) && n < USERPAGES && free + {f} == was && f !in free && f in m
    ensures free == was - {f} && f != d && f !in parent && f !in owner
    ensures Partial(m[f := c], free, p, parent, d, owner, n) && Pte(m[f := c], p, n) == Pte(m, p, n) && SameKernel(m, m[f := c], d)
  {
    assert f in was && d in owner;
    FillKeeps(m, free, p, parent, d, owner, n, f, c);
  }

  /** mappages of the copy. */
  method MapCopy(k: Kernel, p: nat, n: nat, w: nat, f: nat, d: nat, ghost parent: map<nat, Use>, ghost owner: map<nat, Use>) returns (ok: bool, ghost now: map<nat, Use>)
    requires k.Valid() && Partial(k.mem, k.FreeSet(), p, parent, d, owner, n) && n < USERPAGES
    requires w == Pte(k.mem, p, n) && Present(w) && FrameOf(w) in k.mem
    requires f in k.mem && f !in k.free && f !in parent && f !in owner && k.mem[f] == k.mem[FrameOf(w)]
    modifies k
    ensures k.Valid() && k.mem.Keys == old(k.mem).Keys
    ensures ok ==> Partial(k.mem, k.FreeSet(), p, parent, d, now, n + 1) && Split(k.FreeSet(), now, old(k.FreeSet()) + owner.Keys + {f})
    ensures ok ==> k.Charged(d, n / ENTRIES, old(k.mem), |old(k.free)|, 0) && SameKernel(old(k.mem), k.mem, d)
    ensures !ok ==> now == owner && k.mem == old(k.mem) && k.free == old(k.free) == [] && NoTable(k.mem, d, n)
    ensures forall g :: g in k.mem && g !in old(k.FreeSet()) && g !in owner ==> k.mem[g] == old(k.mem)[g]
  {
    ghost var m, free := k.mem, k.FreeSet();
    ok, now := k.MapUserPage(d, n, f, FlagsOf(w), owner);
    if ok {
      assert k.FreeSet() <= free by { NoneGained(k.FreeSet(), free, owner, now, f); }
      MapAddsCopy(m, k.mem, free, k.FreeSet(), p, parent, d, owner, now, n, f);
    }
  }

  lemma NoneGained(less: set<nat>, free: set<nat>, owner: map<nat, Use>, now: map<nat, Use>, f: nat)
    requires Split(less, now, free + owner.Keys + {f}) && f in now && forall g :: g in owner ==> g in now
    ensures less <= free
  {
  }

  lemma {:induction false} PageWord(m: Memory, p: nat, parent: map<nat, Use>, n: nat)
    requires Space(m, p, parent) && n < USERPAGES && Present(Pte(m, p, n))
    ensures p in m && FrameOf(m[p][n / ENTRIES]) in m && Pte(m, p, n) == m[FrameOf(m[p][n / ENTRIES])][n % ENTRIES]
    ensures FrameOf(Pte(m, p, n)) in m && FrameOf(Pte(m, p, n)) in parent
  {
    assert PdeOk(m, p, parent, n / ENTRIES) && PteOk(m, p, parent, n);
    assert UsedFor(m, p, parent, FrameOf(Pte(m, p, n)));
  }

  /** One turn of copyuvm's loop.  `lost` is the frame that is neither free nor part of the child
      when the page table page cannot be had. */
  method CopyPage(k: Kernel, p: nat, n: nat, d: nat, ghost parent: map<nat, Use>, ghost owner: map<nat, Use>)
      returns (end: CopyEnd, ghost now: map<nat, Use>, ghost lost: set<nat>)
    requires k.Valid() && Partial(k.mem, k.FreeSet(), p, parent, d, owner, n) && n < USERPAGES && Present(Pte(k.mem, p, n))
    modifies k
    ensures k.Valid() && Space(k.mem, d, now) && k.mem.Keys == old(k.mem).Keys
    ensures Split(k.FreeSet(), now, old(k.FreeSet()) + owner.Keys - lost)
    ensures lost <= old(k.FreeSet()) && |lost| == (if end == OutOfTables then 1 else 0)
    ensures end == PageDone ==> Partial(k.mem, k.FreeSet(), p, parent, d, now, n + 1)
    ensures end == PageDone ==> k.Charged(d, n / ENTRIES, old(k.mem), |old(k.free)|, 1) && SameKernel(old(k.mem), k.mem, d)
    ensures end == OutOfPages ==> old(k.free) == []
    ensures end == OutOfTables ==> |old(k.free)| == 1 && NoTable(old(k.mem), d, n)
    ensures forall g :: g in k.mem && g !in old(k.FreeSet()) && g !in owner ==> k.mem[g] == old(k.mem)[g]
  {
    now, lost := owner, {};
    PageWord(k.mem, p, parent, n);
    var w := k.mem[FrameOf(k.mem[p][n / ENTRIES])][n % ENTRIES];
    var f := NewCopy(k, p, n, w, d, parent, owner);
    if f.None? {
      return OutOfPages, now, lost;
    }
    end, now, lost := MapOrLose(k, p, n, w, f.value, d, parent, owner, old(k.mem), old(k.FreeSet()), |old(k.free)|);
  }

  lemma TakenOut(free: set<nat>, own: set<nat>, f: nat)
    requires f in free && f !in own
    ensures free + own == free - {f} + own + {f} && free + own - {f} == free - {f} + own
  {
  }

  /** What follows once the page's frame f has been had, out of the free frames free0 on memory m0. */
  method MapOrLose(k: Kernel, p: nat, n: nat, w: nat, f: nat, d: nat, ghost parent: map<nat, Use>, ghost owner: map<nat, Use>, ghost m0: Memory, ghost free0: set<nat>, ghost count: nat)
      returns (end: CopyEnd, ghost now: map<nat, Use>, ghost lost: set<nat>)
    requires k.Valid() && Partial(k.mem, k.FreeSet(), p, parent, d, owner, n) && n < USERPAGES
    requires w == Pte(k.mem, p, n) && Present(w) && FrameOf(w) in k.mem
    requires f in k.mem && f !in k.free && f !in parent && f !in owner && k.mem[f] == k.mem[FrameOf(w)]
    requires f in free0 && k.FreeSet() == free0 - {f} && count == |k.free| + 1
    requires d in m0 && d != f && k.mem == m0[f := k.mem[f]] && f in m0
    modifies k
    ensures k.Valid() && Space(k.mem, d, now) && k.mem.Keys == m0.Keys && (end == PageDone || end == OutOfTables)
    ensures lost == (if end == OutOfTables then {f} else {}) && Split(k.FreeSet(), now, free0 + owner.Keys - lost)
    ensures end != PageDone || Partial(k.mem, k.FreeSet(), p, parent, d, now, n + 1)
    ensures end != PageDone || (k.Charged(d, n / ENTRIES, m0, count, 1) && SameKernel(old(k.mem), k.mem, d))
    ensures end == OutOfTables ==> count == 1 && NoTable(m0, d, n)
    ensures forall g :: g in k.mem && g !in free0 && g !in owner ==> k.mem[g] == m0[g]
  {
    assert Tables(k.mem, d) == Tables(m0, d) && k.mem[d] == m0[d];
    TakenOut(free0, owner.Keys, f);
    var ok;
    ok, now := MapCopy(k, p, n, w, f, d, parent, owner);
    end := if ok then PageDone else OutOfTables;
    lost := if ok then {} else {f};
  }

  /** memmove onto a page that is not free. */
  method Fill(k: Kernel, f: nat, c: Page)
    requires k.Valid() && f in k.mem && f !in k.free
    modifies k`mem
    ensures k.Valid() && k.mem == old(k.mem)[f := c]
  {
    ghost var m := k.mem;
    k.mem := k.mem[f := c];
    ChainFrame(m, k.mem, k.freelist, k.free);
  }

  // ---- how many frames -----------------------------------------------------------------------

  /** The page tables of the first i user pages. */
  function TableCount(i: nat): (n: nat)
  {
    (i + ENTRIES - 1) / ENTRIES
  }

  /** The user page tables are those of the first i pages. */
  ghost predicate UserTables(m: Memory, d: nat, i: nat)
  {
    d in m && forall x :: 0 <= x < USERPAGES / ENTRIES ==> (Present(m[d][x]) <==> x * ENTRIES < i)
  }

  lemma TableStep(m: Memory, r: Memory, d: nat, i: nat, n: nat)
    requires UserTables(m, d, i) && i < USERPAGES && d in r && Tables(r, d) == Tables(m, d) + {i / ENTRIES}
    requires |Tables(m, d)| == n + TableCount(i)
    ensures UserTables(r, d, i + 1) && |Tables(r, d)| == n + TableCount(i + 1)
  {
    var x := i / ENTRIES;
    assert x * ENTRIES < i <==> i % ENTRIES != 0;
    forall y | 0 <= y < USERPAGES / ENTRIES ensures Present(r[d][y]) <==> y * ENTRIES < i + 1 {
      assert Present(r[d][y]) <==> y in Tables(r, d);
      assert Present(m[d][y]) <==> y in Tables(m, d);
    }
    assert Present(m[d][x]) <==> x in Tables(m, d);
    if x in Tables(m, d) {
      assert Tables(r, d) == Tables(m, d);
      assert TableCount(i + 1) == TableCount(i);
    } else {
      assert TableCount(i + 1) == TableCount(i) + 1;
    }
  }

  /** Frames left: of n, one is the directory, i are pages, the others page tables, `kernel` of
      them the kernel's. */
  ghost predicate Tally(k: Kernel, d: nat, i: nat, kernel: nat, n: nat)
    reads k
  {
    UserTables(k.mem, d, i) && |k.free| + 1 + i + |Tables(k.mem, d)| == n && |Tables(k.mem, d)| == kernel + TableCount(i)
  }

  lemma RowsAreHigh(kmap: seq<Range>, u: nat)
    requires Rows(kmap) && InRows(kmap, u)
    ensures u >= USERPAGES
  {
    var j :| 0 <= j < |kmap| && InRange(kmap[j], u);
    assert RangeOk(kmap[j]);
  }

  lemma NoUserTables(m: Memory, d: nat, kmap: seq<Range>)
    requires d in m && Rows(kmap) && Tables(m, d) == KernelTables(kmap)
    ensures UserTables(m, d, 0)
  {
    forall x | x in KernelTables(kmap) ensures x >= USERPAGES / ENTRIES {
      var u: nat :| InRows(kmap, u) && u / ENTRIES == x;
      RowsAreHigh(kmap, u);
    }
    forall x | 0 <= x < USERPAGES / ENTRIES ensures !Present(m[d][x]) {
      assert Present(m[d][x]) <==> x in Tables(m, d);
    }
  }

  /** What copyuvm can run out of. */
  datatype Outcome = Success | NoDirectory | NoKernelTable | NoPage | NoUserTable

  /** With `free` free frames, `kernel` page tables in the kernel's part and n user pages: the frames
      are taken in the order directory, kernel tables, and then for each user page its own frame
      and, every 1024 pages, a page table's. */
  function Expected(free: nat, kernel: nat, n: nat): (e: Outcome)
  {
    if free == 0 then NoDirectory
    else if free < 1 + kernel then NoKernelTable
    else if free >= 1 + kernel + n + TableCount(n) then Success
    else if (free - 1 - kernel) % (ENTRIES + 1) == 1 then NoUserTable
    else NoPage
  }

  lemma PageRunsOut(free: nat, kernel: nat, n: nat, i: nat)
    requires i < n && free == 1 + kernel + i + TableCount(i)
    ensures Expected(free, kernel, n) == NoPage
  {
    var q, r := i / ENTRIES, i % ENTRIES;
    assert i == q * ENTRIES + r;
    assert TableCount(i) == if r == 0 then q else q + 1;
    assert free - 1 - kernel == q * (ENTRIES + 1) + (if r == 0 then 0 else r + 1);
    assert TableCount(i) <= TableCount(n);
    ModOf(q, if r == 0 then 0 else r + 1);
  }

  lemma TableRunsOut(free: nat, kernel: nat, n: nat, i: nat)
    requires i < n && i % ENTRIES == 0 && free == 1 + kernel + i + TableCount(i) + 1
    ensures Expected(free, kernel, n) == NoUserTable
  {
    var q := i / ENTRIES;
    assert i == q * ENTRIES && TableCount(i) == q;
    assert TableCount(i) < TableCount(n);
    ModOf(q, 1);
  }

  lemma ModOf(q: nat, r: nat)
    requires r < ENTRIES + 1
    ensures (q * (ENTRIES + 1) + r) % (ENTRIES + 1) == r
  {
  }

  // ---- copyuvm as a whole --------------------------------------------------------------------

  /** copyuvm of the first n pages of p.  A child has frames that were free, its own for each page,
      the same contents and flags page by page, and no other user page; the parent and all other
      frames are as they were.  How it ends depends on the number of free frames alone.  After a
      failure every frame is free again but those in `lost`: the frame of a page whose page table
      could not be had, or, when setupkvm failed for want of a page table, every frame. */
  method CopyUvm(k: Kernel, p: nat, n: nat, kmap: seq<Range>, ghost parent: map<nat, Use>)
      returns (d: Option<nat>, ghost end: Outcome, ghost owner: map<nat, Use>, ghost lost: set<nat>)
    requires k.Valid() && Rows(kmap) && Space(k.mem, p, parent) && k.FreeSet() !! parent.Keys && n <= USERPAGES
    requires forall v :: 0 <= v < n ==> Present(Pte(k.mem, p, v))
    modifies k
    ensures k.Valid() && k.mem.Keys == old(k.mem).Keys
    ensures forall g :: g in k.mem && g !in old(k.FreeSet()) ==> k.mem[g] == old(k.mem)[g]
    ensures end == Expected(|old(k.free)|, |KernelTables(kmap)|, n) && (d.Some? <==> end == Success)
    ensures d.Some? ==> Partial(k.mem, k.FreeSet(), p, parent, d.value, owner, n) && Split(k.FreeSet(), owner, old(k.FreeSet()))
    ensures d.Some? ==> forall v :: 0 <= v < USERPAGES ==> ViewOf(k.mem, d.value, v) == if v < n then ViewOf(old(k.mem), p, v) else Nothing
    ensures d.Some? ==> KernelHalf(k.mem, d.value, kmap)
    ensures d.None? ==> k.FreeSet() == old(k.FreeSet()) - lost && lost <= old(k.FreeSet())
    ensures end == NoDirectory || end == NoPage ==> lost == {}
    ensures end == NoUserTable ==> |lost| == 1
    ensures end == NoKernelTable ==> lost == old(k.FreeSet()) && lost != {}
  {
    ghost var m0, free0, f, t := k.mem, k.FreeSet(), |k.free|, |KernelTables(kmap)|;
    d, end, owner, lost := StartChild(k, p, n, kmap, parent);
    if d.Some? {
      var ok;
      ok, end, owner, lost := CopyPages(k, p, n, d.value, kmap, parent, owner, m0, free0, t, f);
      if ok {
        ChildSees(m0, k.mem, k.FreeSet(), free0, p, parent, d.value, owner, n);
      } else {
        d := None;
      }
    }
  }

  /** What the child sees is what the parent saw. */
  lemma {:induction false} ChildSees(m0: Memory, m: Memory, free: set<nat>, free0: set<nat>, p: nat, parent: map<nat, Use>, d: nat, owner: map<nat, Use>, n: nat)
    requires Partial(m, free, p, parent, d, owner, n) && Space(m0, p, parent) && free0 !! parent.Keys
    requires m.Keys == m0.Keys && forall g :: g in m0 && g !in free0 ==> m[g] == m0[g]
    ensures forall v :: 0 <= v < USERPAGES ==> ViewOf(m, d, v) == if v < n then ViewOf(m0, p, v) else Nothing
  {
    forall v | 0 <= v < USERPAGES ensures ViewOf(m, d, v) == if v < n then ViewOf(m0, p, v) else Nothing {
      TableDecides(m, d, owner, v);
      if v < n {
        assert PageCopied(m, p, d, v);
        ViewsAgree(m, p, parent, d, owner, v);
        ViewKept(m0, m, free0, p, parent, v);
      }
    }
  }

  lemma {:induction false} ViewKept(m0: Memory, m: Memory, free0: set<nat>, p: nat, parent: map<nat, Use>, v: nat)
    requires Space(m0, p, parent) && free0 !! parent.Keys && v < USERPAGES
    requires m.Keys == m0.Keys && forall g :: g in m0 && g !in free0 ==> m[g] == m0[g]
    ensures p in m && ViewOf(m, p, v) == ViewOf(m0, p, v)
  {
    ParentKept(m0, m, free0, p, parent, v);
    TableDecides(m0, p, parent, v);
    TableDecides(m, p, parent, v);
    assert PteOk(m0, p, parent, v);
    if Present(Pte(m0, p, v)) { assert UsedFor(m0, p, parent, FrameOf(Pte(m0, p, v))); }
  }

  /** copyuvm's loop. */
  method CopyPages(k: Kernel, p: nat, n: nat, d: nat, ghost kmap: seq<Range>, ghost parent: map<nat, Use>, ghost start: map<nat, Use>, ghost m0: Memory, ghost free0: set<nat>, ghost t: nat, ghost f: nat)
      returns (ok: bool, ghost end: Outcome, ghost owner: map<nat, Use>, ghost lost: set<nat>)
    requires Copying(k, p, parent, d, start, 0, m0, free0) && Tally(k, d, 0, t, f) && n <= USERPAGES
    requires Space(m0, p, parent) && free0 !! parent.Keys && forall v :: 0 <= v < n ==> Present(Pte(m0, p, v))
    requires KernelHalf(k.mem, d, kmap)
    modifies k
    ensures end == Expected(f, t, n) && (ok <==> end == Success)
    ensures ok ==> Copying(k, p, parent, d, owner, n, m0, free0) && KernelHalf(k.mem, d, kmap)
    ensures !ok ==> Restored(k, m0, free0, lost) && (end == NoPage || end == NoUserTable) && |lost| == (if end == NoPage then 0 else 1)
  {
    owner, lost := start, {};
    var i := 0;
    while i < n
      invariant 0 <= i <= n && Copying(k, p, parent, d, owner, i, m0, free0) && Tally(k, d, i, t, f) && KernelHalf(k.mem, d, kmap)
    {
      ParentKept(m0, k.mem, free0, p, parent, i);
      var c;
      c, owner, lost := CopyOrFree(k, p, i, d, kmap, parent, owner, m0, free0, t, f, n);
      if c != PageDone {
        return false, Expected(f, t, n), owner, lost;
      }
      i := i + 1;
    }
    ok, end := true, Success;
  }

  /** setupkvm for the child. */
  method StartChild(k: Kernel, p: nat, ghost n: nat, kmap: seq<Range>, ghost parent: map<nat, Use>)
      returns (d: Option<nat>, ghost end: Outcome, ghost owner: map<nat, Use>, ghost lost: set<nat>)
    requires k.Valid() && Rows(kmap) && Space(k.mem, p, parent) && k.FreeSet() !! parent.Keys
    modifies k
    ensures d.Some? ==> Copying(k, p, parent, d.value, owner, 0, old(k.mem), old(k.FreeSet()))
    ensures d.Some? ==> Tally(k, d.value, 0, |KernelTables(kmap)|, |old(k.free)|) && KernelHalf(k.mem, d.value, kmap)
    ensures d.None? ==> Restored(k, old(k.mem), old(k.FreeSet()), lost) && lost == old(k.FreeSet())
    ensures d.None? ==> end == Expected(|old(k.free)|, |KernelTables(kmap)|, n) && (end == NoDirectory || end == NoKernelTable)
    ensures d.None? ==> (lost == {} <==> end == NoDirectory)
  {
    ghost var m0, free0, f := k.mem, k.FreeSet(), |k.free|;
    d, owner := k.SetupKvm(kmap);
    lost := owner.Keys;
    end := Expected(f, |KernelTables(kmap)|, n);
    if d.Some? {
      StartCopy(m0, k.mem, k.FreeSet(), free0, p, parent, d.value, owner, kmap);
      NoUserTables(k.mem, d.value, kmap);
      KernelOnlyHalf(k.mem, d.value, kmap);
    } else {
      assert f > 0 ==> old(k.free)[0] in free0;
    }
  }

  /** Nothing but free frames has changed, and all frames of free0 but the lost ones are free. */
  ghost predicate Restored(k: Kernel, m0: Memory, free0: set<nat>, lost: set<nat>)
    reads k
  {
    && k.Valid() && k.FreeSet() == free0 - lost && lost <= free0 && k.mem.Keys == m0.Keys
    && forall g :: g in m0 && g !in free0 ==> k.mem[g] == m0[g]
  }

  /** A turn of the loop, and the way out at `bad` when it fails. */
  method CopyOrFree(k: Kernel, p: nat, i: nat, d: nat, ghost kmap: seq<Range>, ghost parent: map<nat, Use>, ghost owner: map<nat, Use>, ghost m0: Memory, ghost free0: set<nat>,
                    ghost kernel: nat, ghost free: nat, ghost n: nat)
      returns (end: CopyEnd, ghost now: map<nat, Use>, ghost lost: set<nat>)
    requires Copying(k, p, parent, d, owner, i, m0, free0) && i < n <= USERPAGES && Present(Pte(k.mem, p, i)) && Tally(k, d, i, kernel, free)
    requires KernelHalf(k.mem, d, kmap)
    modifies k
    ensures end == PageDone ==> Copying(k, p, parent, d, now, i + 1, m0, free0) && Tally(k, d, i + 1, kernel, free) && KernelHalf(k.mem, d, kmap)
    ensures end == OutOfPages ==> Restored(k, m0, free0, lost) && lost == {} && Expected(free, kernel, n) == NoPage
    ensures end == OutOfTables ==> Restored(k, m0, free0, lost) && |lost| == 1 && Expected(free, kernel, n) == NoUserTable
  {
    ghost var m := k.mem;
    end, now, lost := CopyPage(k, p, i, d, parent, owner);
    if end == PageDone {
      TableStep(m, k.mem, d, i, kernel);
      KernelStays(m, k.mem, d, kmap);
    } else {
      OutOfFrames(m, d, i, kernel, free, n, end);
      FreeVm(k, d, now);
    }
  }

  /** Which frame was missing, told from the number of free frames. */
  lemma OutOfFrames(m: Memory, d: nat, i: nat, kernel: nat, free: nat, n: nat, end: CopyEnd)
    requires i < n <= USERPAGES && UserTables(m, d, i)
    requires end == OutOfPages ==> free == 1 + kernel + i + TableCount(i)
    requires end == OutOfTables ==> free == 1 + kernel + i + TableCount(i) + 1 && NoTable(m, d, i)
    ensures end == OutOfPages ==> Expected(free, kernel, n) == NoPage
    ensures end == OutOfTables ==> Expected(free, kernel, n) == NoUserTable
  {
    if end == OutOfPages {
      PageRunsOut(free, kernel, n, i);
    } else if end == OutOfTables {
      assert !(i / ENTRIES * ENTRIES < i);
      TableRunsOut(free, kernel, n, i);
    }
  }

  /** copyuvm's loop has copied i pages. */
  ghost predicate Copying(k: Kernel, p: nat, parent: map<nat, Use>, d: nat, owner: map<nat, Use>, i: nat, m0: Memory, free0: set<nat>)
    reads k
  {
    && k.Valid() && Partial(k.mem, k.FreeSet(), p, parent, d, owner, i) && Split(k.FreeSet(), owner, free0)
    && k.mem.Keys == m0.Keys && forall g :: g in m0 && g !in free0 ==> k.mem[g] == m0[g]
  }

  lemma ParentKept(m0: Memory, m: Memory, free0: set<nat>, p: nat, parent: map<nat, Use>, i: nat)
    requires Space(m0, p, parent) && free0 !! parent.Keys && m.Keys == m0.Keys && (forall g :: g in m0 && g !in free0 ==> m[g] == m0[g]) && i < ALLPAGES
    ensures Space(m, p, parent) && Pte(m, p, i) == Pte(m0, p, i)
  {
    forall g | g in parent ensures g in m0 && m[g] == m0[g] { assert UsedFor(m0, p, parent, g); }
    SpaceFrame(m0, m, p, parent);
  }

  lemma StartCopy(m0: Memory, m: Memory, free: set<nat>, free0: set<nat>, p: nat, parent: map<nat, Use>, d: nat, owner: map<nat, Use>, kmap: seq<Range>)
    requires Space(m0, p, parent) && free0 !! parent.Keys && m.Keys == m0.Keys && forall g :: g in m0 && g !in free0 ==> m[g] == m0[g]
    requires Space(m, d, owner) && Split(free, owner, free0) && KernelOnly(m, d, kmap, |kmap|)
    ensures Partial(m, free, p, parent, d, owner, 0)
  {
    ParentKept(m0, m, free0, p, parent, 0);
    forall v | 0 <= v < USERPAGES ensures !Present(Pte(m, d, v)) { NoUserPage(m, d, kmap, v); }
  }

  /** The child's pages lie in frames of their own: none of the parent's, and no frame twice. */
  lemma ChildFrames(m: Memory, free: set<nat>, p: nat, parent: map<nat, Use>, d: nat, owner: map<nat, Use>, n: nat, u: nat, v: nat)
    requires Partial(m, free, p, parent, d, owner, n) && u < n && v < n
    ensures FrameOf(Pte(m, d, u)) in owner && FrameOf(Pte(m, p, v)) in parent && FrameOf(Pte(m, d, u)) != FrameOf(Pte(m, p, v))
    ensures u != v ==> FrameOf(Pte(m, d, u)) != FrameOf(Pte(m, d, v))
  {
    assert PageCopied(m, p, d, u) && PageCopied(m, p, d, v);
    assert PteOk(m, d, owner, u) && PteOk(m, d, owner, v) && PteOk(m, p, parent, v);
  }

  /** Whatever either process stores in its own pages, the other sees all of its pages as before. */
  lemma StoresAreIsolated(m: Memory, free: set<nat>, p: nat, parent: map<nat, Use>, d: nat, owner: map<nat, Use>, n: nat, u: nat, c: Page, v: nat)
    requires Partial(m, free, p, parent, d, owner, n) && u < n && v < n
    ensures var r := m[FrameOf(Pte(m, d, u)) := c];
            Pte(r, p, v) == Pte(m, p, v) && FrameOf(Pte(m, p, v)) in m && r[FrameOf(Pte(m, p, v))] == m[FrameOf(Pte(m, p, v))]
    ensures var r := m[FrameOf(Pte(m, p, u)) := c];
            Pte(r, d, v) == Pte(m, d, v) && FrameOf(Pte(m, d, v)) in m && r[FrameOf(Pte(m, d, v))] == m[FrameOf(Pte(m, d, v))]
  {
    assert PageCopied(m, p, d, v);
    ChildFrames(m, free, p, parent, d, owner, n, u, v);
    ChildFrames(m, free, p, parent, d, owner, n, v, u);
    forall g | g in parent ensures g in m { assert UsedFor(m, p, parent, g); }
    forall g | g in owner ensures g in m { assert UsedFor(m, d, owner, g); }
    SpaceFrame(m, m[FrameOf(Pte(m, d, u)) := c], p, parent);
    SpaceFrame(m, m[FrameOf(Pte(m, p, u)) := c], d, owner);
  }

  /** copyuvm, then freevm of the child if there is one: the same frames are free as before, if and
      only if no page table was missing once a frame had been taken. */
  method CopyThenFree(k: Kernel, p: nat, n: nat, kmap: seq<Range>, ghost parent: map<nat, Use>) returns (d: Option<nat>)
    requires k.Valid() && Rows(kmap) && Space(k.mem, p, parent) && k.FreeSet() !! parent.Keys && n <= USERPAGES
    requires forall v :: 0 <= v < n ==> Present(Pte(k.mem, p, v))
    modifies k
    ensures k.Valid()
    ensures k.FreeSet() == old(k.FreeSet())
            <==> var e := Expected(|old(k.free)|, |KernelTables(kmap)|, n); e != NoKernelTable && e != NoUserTable
    ensures forall g :: g in k.mem && g !in old(k.FreeSet()) ==> g in old(k.mem) && k.mem[g] == old(k.mem)[g]
  {
    ghost var end, owner, lost;
    d, end, owner, lost := CopyUvm(k, p, n, kmap, parent);
    if d.Some? {
      FreeVm(k, d.value, owner);
    }
  }

  /** A failing copyuvm that loses a frame.  The parent p has one page; the frames `free` are two more
      than the kernel's page tables: a directory, a page, and none for the page's table.  `before` is
      the memory copyuvm starts from, and afterwards one frame is neither free nor any process's. */
  method LosesAFrame(kmap: seq<Range>, t: nat)
      returns (k: Kernel, p: nat, d: Option<nat>, ghost before: Memory, ghost free: seq<nat>, ghost parent: map<nat, Use>, ghost lost: set<nat>)
    requires Rows(kmap) && t == |KernelTables(kmap)|
    ensures Space(before, p, parent) && Present(Pte(before, p, 0)) && (forall g :: g in free ==> g in before && g !in parent)
    ensures |free| == t + 2 && Expected(|free|, t, 1) == NoUserTable
    ensures k.Valid() && d.None? && k.mem.Keys == before.Keys && Space(k.mem, p, parent)
    ensures forall g :: g in before && g !in free ==> k.mem[g] == before[g]
    ensures |lost| == 1 && (forall g :: g in lost ==> g in free) && forall g :: g in k.FreeSet() <==> g in free && g !in lost
  {
    k, p, parent := OnePageParent(kmap, t);
    before, free := k.mem, k.free;
    assert Expected(t + 2, t, 1) == NoUserTable;
    ghost var free0, end, owner := k.FreeSet(), Success, parent;
    FreeInMemory(k);
    d, end, owner, lost := CopyUvm(k, p, 1, kmap, parent);
    ParentKept(before, k.mem, free0, p, parent, 0);
  }

  lemma FreeInMemory(k: Kernel)
    requires k.Valid()
    ensures k.FreeSet() <= k.mem.Keys
  {
  }

  /** A machine of 2t + 5 frames and a process of one page on it, leaving t + 2 frames free. */
  method OnePageParent(kmap: seq<Range>, t: nat) returns (k: Kernel, p: nat, ghost parent: map<nat, Use>)
    requires Rows(kmap) && t == |KernelTables(kmap)|
    ensures fresh(k) && k.Valid() && Space(k.mem, p, parent) && k.FreeSet() !! parent.Keys && |k.free| == t + 2 && Present(Pte(k.mem, p, 0))
  {
    k := NewMachine(2 * t + 5);
    var d;
    d, parent := k.SetupKvm(kmap);
    p := d.value;
    NoUserPage(k.mem, p, kmap, 0);
    NoUserTables(k.mem, p, kmap);
    parent := FirstPage(k, p, parent);
  }

  /** The first page of an empty process: its frame, and its page table. */
  method FirstPage(k: Kernel, p: nat, ghost owner: map<nat, Use>) returns (ghost parent: map<nat, Use>)
    requires k.Valid() && Space(k.mem, p, owner) && k.FreeSet() !! owner.Keys && |k.free| >= 2
    requires UserTables(k.mem, p, 0) && !Present(Pte(k.mem, p, 0))
    modifies k
    ensures k.Valid() && Space(k.mem, p, parent) && k.FreeSet() !! parent.Keys && |k.free| == |old(k.free)| - 2 && Present(Pte(k.mem, p, 0))
  {
    var f := k.Kalloc();
    ghost var m := k.mem;
    var ok;
    ok, parent := k.MapUserPage(p, 0, f.value, 6, owner);
    assert 0 !in Tables(m, p) && Tables(k.mem, p) == Tables(m, p) + {0};
    PresentEntry(f.value, 6);
  }

  lemma PresentEntry(f: nat, perm: nat)
    requires perm < PGSIZE
    ensures Present(Entry(f, perm))
  {
  }

  /** Frames 1 to n, all free. */
  method NewMachine(n: nat) returns (k: Kernel)
    ensures fresh(k) && k.Valid() && |k.free| == n
  {
    k := new Kernel(Frames(n));
    MachineRange(n);
    k.Freerange(Address(1), Address(n + 1));
  }

  function Frames(n: nat): (m: Memory)
    ensures forall f :: f in m <==> 1 <= f <= n
  {
    if n == 0 then map[] else Frames(n - 1)[n := Zeros()]
  }

  lemma MachineRange(n: nat)
    ensures FirstFrame(Address(1)) == 1 && LastFrame(Address(n + 1)) == n + 1
  {
  }
}
