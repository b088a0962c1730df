/** Two-level page tables over a memory of page frames (vm.c), as values.  A frame holds 1024
    words; a word is also a page directory or page table entry. */
module PageTables {

  const PGSIZE: nat := 4096
  const ENTRIES: nat := 1024            // NPDENTRIES and NPTENTRIES
  const USERPAGES: nat := 512 * 1024    // KERNBASE / PGSIZE
  const ALLPAGES: nat := 1024 * 1024

  type Page = p: seq<nat> | |p| == ENTRIES witness seq(ENTRIES, i => 0)
  type Memory = map<nat, Page>

  function Zeros(): (p: Page)
    ensures forall i :: 0 <= i < ENTRIES ==> p[i] == 0
  {
    seq(ENTRIES, i => 0)
  }

  /** *pte & PTE_P, PTE_ADDR and PTE_FLAGS. */
  predicate Present(w: nat) { w % 2 == 1 }
  function FrameOf(w: nat): (f: nat) { w / PGSIZE }
  function FlagsOf(w: nat): (n: nat) { w % PGSIZE }

  /** PTE_W and PTE_U, bits 1 and 2. */
  predicate Writable(w: nat) { w / 2 % 2 == 1 }
  predicate ForUser(w: nat) { w / 4 % 2 == 1 }

  /** They are among the flags. */
  lemma {:induction false} FlagBits(w: nat)
    ensures Writable(FlagsOf(w)) == Writable(w) && ForUser(FlagsOf(w)) == ForUser(w)
  {
    assert w == FrameOf(w) * PGSIZE + FlagsOf(w);
    LowBit1(FrameOf(w), FlagsOf(w));
    LowBit2(FrameOf(w), FlagsOf(w));
  }

  lemma LowBit1(f: nat, n: nat)
    ensures (f * 4096 + n) / 2 % 2 == n / 2 % 2
  {
    HalfOf(f * 2048 + n / 2, n % 2);
    Even(f * 1024, n / 2);
  }

  lemma LowBit2(f: nat, n: nat)
    ensures (f * 4096 + n) / 4 % 2 == n / 4 % 2
  {
    QuarterOf(f * 1024 + n / 4, n % 4);
    Even(f * 512, n / 4);
  }

  lemma HalfOf(q: nat, r: nat)
    requires r < 2
    ensures (q * 2 + r) / 2 == q
  {
  }

  lemma QuarterOf(q: nat, r: nat)
    requires r < 4
    ensures (q * 4 + r) / 4 == q
  {
  }

  lemma Even(k: nat, m: nat)
    ensures (2 * k + m) % 2 == m % 2
  {
  }

  /** pa | perm | PTE_P lets through what perm does. */
  lemma {:induction false} EntryBits(f: nat, perm: nat)
    requires perm < PGSIZE
    ensures Writable(Entry(f, perm)) == Writable(perm) && ForUser(Entry(f, perm)) == ForUser(perm)
  {
    FlagBits(Entry(f, perm));
  }

  /** pa | perm | PTE_P for the frame f. */
  function Entry(f: nat, perm: nat): (w: nat)
    requires perm < PGSIZE
    ensures Present(w) && FrameOf(w) == f && FlagsOf(w) == (if perm % 2 == 1 then perm else perm + 1)
  {
    var low := if perm % 2 == 1 then perm else perm + 1;
    EntryParts(f, low);
    f * PGSIZE + low
  }

  lemma EntryParts(f: nat, low: nat)
    requires low < PGSIZE
    ensures (f * PGSIZE + low) / PGSIZE == f && (f * PGSIZE + low) % PGSIZE == low && (f * PGSIZE + low) % 2 == low % 2
  {
    assert f * PGSIZE + low == 2 * (2048 * f) + low;
  }

  /** The page table entry for virtual page v, 0 if there is no page table. */
  function Pte(m: Memory, d: nat, v: nat): (w: nat)
    requires d in m && v < ALLPAGES
  {
    var pde := m[d][v / ENTRIES];
    if Present(pde) && FrameOf(pde) in m then m[FrameOf(pde)][v % ENTRIES] else 0
  }

  /** What the processor finds at page v: nothing, or a frame, and whether it lets stores and user
      code through, which both levels must. */
  datatype Reach = Fault | Reach(frame: nat, writable: bool, user: bool)

  function Translate(m: Memory, d: nat, v: nat): (r: Reach)
    requires d in m && v < ALLPAGES
  {
    var pde := m[d][v / ENTRIES];
    if !Present(pde) || FrameOf(pde) !in m then Fault
    else
      var pte := m[FrameOf(pde)][v % ENTRIES];
      if !Present(pte) then Fault
      else Reach(FrameOf(pte), Writable(pde) && Writable(pte), ForUser(pde) && ForUser(pte))
  }

  /** In an address space the page table entry decides. */
  lemma {:induction false} TableDecides(m: Memory, d: nat, owner: map<nat, Use>, v: nat)
    requires Space(m, d, owner) && v < ALLPAGES
    ensures Translate(m, d, v) == if Present(Pte(m, d, v)) then Reach(FrameOf(Pte(m, d, v)), Writable(Pte(m, d, v)), ForUser(Pte(m, d, v))) else Fault
  {
    assert PdeOk(m, d, owner, v / ENTRIES);
  }

  /** A page as a process sees it. */
  datatype View = Nothing | View(page: Page, writable: bool, user: bool)

  function ViewOf(m: Memory, d: nat, v: nat): (r: View)
    requires d in m && v < ALLPAGES
  {
    match Translate(m, d, v)
    case Fault => Nothing
    case Reach(f, w, u) => if f in m then View(m[f], w, u) else Nothing
  }

  /** The directory entries that lead to a page table. */
  ghost function Tables(m: Memory, d: nat): (s: set<nat>)
    requires d in m
    ensures forall x :: x in s <==> 0 <= x < ENTRIES && Present(m[d][x])
  {
    set x | 0 <= x < ENTRIES && Present(m[d][x])
  }

  /** What a frame of an address space is for. */
  datatype Use = Dir | Table(x: nat) | User(v: nat)

  /** The directory's entry x leads to a table of this space, and leaves the permissions to it. */
  ghost predicate PdeOk(m: Memory, d: nat, owner: map<nat, Use>, x: nat)
    requires d in m && x < ENTRIES
  {
    Present(m[d][x]) ==>
      && FrameOf(m[d][x]) in owner && owner[FrameOf(m[d][x])] == Table(x) && FrameOf(m[d][x]) in m
      && Writable(m[d][x]) && ForUser(m[d][x])
  }

  /** The user page v, if mapped, has a frame of this space for itself. */
  ghost predicate PteOk(m: Memory, d: nat, owner: map<nat, Use>, v: nat)
    requires d in m && v < USERPAGES
  {
    Present(Pte(m, d, v)) ==> FrameOf(Pte(m, d, v)) in owner && owner[FrameOf(Pte(m, d, v))] == User(v)
  }

  /** The frame f is there for what `owner` says. */
  ghost predicate UsedFor(m: Memory, d: nat, owner: map<nat, Use>, f: nat)
    requires d in m && f in owner
  {
    && f in m
    && (owner[f].Dir? ==> f == d)
    && (owner[f].Table? ==> owner[f].x < ENTRIES && Present(m[d][owner[f].x]) && FrameOf(m[d][owner[f].x]) == f)
    && (owner[f].User? ==> owner[f].v < USERPAGES && Present(Pte(m, d, owner[f].v)) && FrameOf(Pte(m, d, owner[f].v)) == f)
  }

  /** d is the directory of an address space made of exactly the frames of `owner`: itself, its
      page tables, and one frame for each mapped user page. */
  ghost predicate Space(m: Memory, d: nat, owner: map<nat, Use>)
  {
    && d in m && d in owner && owner[d] == Dir
    && (forall x :: 0 <= x < ENTRIES ==> PdeOk(m, d, owner, x))
    && (forall v :: 0 <= v < USERPAGES ==> PteOk(m, d, owner, v))
    && (forall f :: f in owner ==> UsedFor(m, d, owner, f))
  }

  /** m and n hold the same in every frame of the set. */
  ghost predicate Agree(m: Memory, n: Memory, frames: set<nat>)
  {
    forall f :: f in frames ==> f in m && f in n && m[f] == n[f]
  }

  /** A space depends only on its own frames. */
  lemma SpaceFrame(m: Memory, n: Memory, d: nat, owner: map<nat, Use>)
    requires Space(m, d, owner) && Agree(m, n, owner.Keys)
    ensures Space(n, d, owner) && forall v :: 0 <= v < ALLPAGES ==> Pte(n, d, v) == Pte(m, d, v)
  {
    forall v | 0 <= v < ALLPAGES ensures Pte(n, d, v) == Pte(m, d, v) {
      assert PdeOk(m, d, owner, v / ENTRIES);
    }
    forall x | 0 <= x < ENTRIES ensures PdeOk(n, d, owner, x) { assert PdeOk(m, d, owner, x); }
    forall v | 0 <= v < USERPAGES ensures PteOk(n, d, owner, v) { assert PteOk(m, d, owner, v); }
    forall f | f in owner ensures UsedFor(n, d, owner, f) { assert UsedFor(m, d, owner, f); }
  }

  /** Only entry x differs, and only if it led nowhere. */
  predicate Directory(a: Page, b: Page, x: nat)
  {
    forall y :: 0 <= y < ENTRIES && (y != x || Present(a[y])) ==> b[y] == a[y]
  }

  /** A fresh zeroed directory. */
  lemma EmptySpace(m: Memory, d: nat)
    requires d in m && m[d] == Zeros()
    ensures Space(m, d, map[d := Dir])
  {
  }

  /** walkpgdir's new page table: no page appears or disappears. */
  lemma AddTable(m: Memory, d: nat, owner: map<nat, Use>, x: nat, t: nat, n: Memory)
    requires Space(m, d, owner) && x < ENTRIES && !Present(m[d][x]) && t in m && t !in owner
    requires n == m[t := Zeros()][d := m[d][x := Entry(t, 7)]]
    ensures Space(n, d, owner[t := Table(x)])
    ensures forall v :: 0 <= v < ALLPAGES ==> Pte(n, d, v) == Pte(m, d, v)
    ensures x !in Tables(m, d) && Tables(n, d) == Tables(m, d) + {x}
    ensures Writable(n[d][x]) && ForUser(n[d][x]) && Directory(m[d], n[d], x)
  {
    var now := owner[t := Table(x)];
    EntryBits(t, 7);
    forall v | 0 <= v < ALLPAGES ensures Pte(n, d, v) == Pte(m, d, v) {
      assert PdeOk(m, d, owner, v / ENTRIES);
    }
    forall y | 0 <= y < ENTRIES ensures PdeOk(n, d, now, y) { assert PdeOk(m, d, owner, y); }
    forall v | 0 <= v < USERPAGES ensures PteOk(n, d, now, v) { assert PteOk(m, d, owner, v); }
    forall f | f in now ensures UsedFor(n, d, now, f) { if f != t { assert UsedFor(m, d, owner, f); } }
  }

  /** The page table of v, with its entry for v replaced by w. */
  function Put(m: Memory, d: nat, v: nat, w: nat): (n: Memory)
    requires d in m && v < ALLPAGES && Present(m[d][v / ENTRIES]) && FrameOf(m[d][v / ENTRIES]) in m
  {
    var t := FrameOf(m[d][v / ENTRIES]);
    m[t := m[t][v % ENTRIES := w]]
  }

  /** Only the entry for v changes. */
  lemma PutPte(m: Memory, d: nat, owner: map<nat, Use>, v: nat, w: nat, u: nat)
    requires Space(m, d, owner) && v < ALLPAGES && u < ALLPAGES && Present(m[d][v / ENTRIES])
    ensures FrameOf(m[d][v / ENTRIES]) in m
    ensures Pte(Put(m, d, v, w), d, u) == if u == v then w else Pte(m, d, u)
    ensures Put(m, d, v, w)[d] == m[d]
  {
    assert PdeOk(m, d, owner, v / ENTRIES) && PdeOk(m, d, owner, u / ENTRIES);
    assert u / ENTRIES == v / ENTRIES && u % ENTRIES == v % ENTRIES ==> u == v;
  }

  /** What Put leaves alone. */
  lemma PutKeeps(m: Memory, d: nat, owner: map<nat, Use>, v: nat, w: nat, now: map<nat, Use>)
    requires Space(m, d, owner) && v < ALLPAGES && Present(m[d][v / ENTRIES]) && FrameOf(m[d][v / ENTRIES]) in m
    requires d in now && now[d] == Dir && (forall f :: f in owner && !owner[f].User? ==> f in now && now[f] == owner[f])
    requires forall f :: f in now ==> (f in owner && now[f] == owner[f] && now[f] != User(v)) || (now[f] == User(v) && v < USERPAGES && f in m && Present(w) && FrameOf(w) == f)
    requires forall f :: f in owner && owner[f].User? && owner[f] != User(v) ==> f in now && now[f] == owner[f]
    requires v < USERPAGES && Present(w) ==> FrameOf(w) in now && now[FrameOf(w)] == User(v)
    ensures Space(Put(m, d, v, w), d, now)
  {
    var n := Put(m, d, v, w);
    PutPte(m, d, owner, v, w, v);
    forall y | 0 <= y < ENTRIES ensures PdeOk(n, d, now, y) { assert PdeOk(m, d, owner, y); }
    forall u | 0 <= u < USERPAGES ensures PteOk(n, d, now, u) {
      PutPte(m, d, owner, v, w, u);
      assert PteOk(m, d, owner, u);
    }
    forall f | f in now ensures UsedFor(n, d, now, f) {
      if now[f] != User(v) {
        assert UsedFor(m, d, owner, f);
        if now[f].User? { PutPte(m, d, owner, v, w, now[f].v); }
      }
    }
  }

  /** mappages for one user page. */
  lemma MapUser(m: Memory, d: nat, owner: map<nat, Use>, v: nat, f: nat, perm: nat)
    requires Space(m, d, owner) && v < USERPAGES && Present(m[d][v / ENTRIES]) && FrameOf(m[d][v / ENTRIES]) in m
    requires !Present(Pte(m, d, v)) && f in m && f !in owner && perm < PGSIZE
    ensures Space(Put(m, d, v, Entry(f, perm)), d, owner[f := User(v)])
  {
    forall g | g in owner ensures owner[g] != User(v) { assert UsedFor(m, d, owner, g); }
    PutKeeps(m, d, owner, v, Entry(f, perm), owner[f := User(v)]);
  }

  /** mappages for one kernel page: the frame does not belong to the space. */
  lemma MapKernel(m: Memory, d: nat, owner: map<nat, Use>, v: nat, w: nat)
    requires Space(m, d, owner) && USERPAGES <= v < ALLPAGES && Present(m[d][v / ENTRIES]) && FrameOf(m[d][v / ENTRIES]) in m
    ensures Space(Put(m, d, v, w), d, owner)
  {
    forall g | g in owner ensures owner[g] != User(v) { assert UsedFor(m, d, owner, g); }
    PutKeeps(m, d, owner, v, w, owner);
  }

  /** *pte = 0 for a mapped user page. */
  lemma Unmap(m: Memory, d: nat, owner: map<nat, Use>, v: nat)
    requires Space(m, d, owner) && v < USERPAGES && Present(Pte(m, d, v))
    ensures Present(m[d][v / ENTRIES]) && FrameOf(m[d][v / ENTRIES]) in m
    ensures var f := FrameOf(Pte(m, d, v)); f in owner && owner[f] == User(v) && Space(Put(m, d, v, 0), d, owner - {f})
  {
    var f := FrameOf(Pte(m, d, v));
    assert PteOk(m, d, owner, v);
    forall g | g in owner && owner[g] == User(v) ensures g == f { assert UsedFor(m, d, owner, g); }
    PutKeeps(m, d, owner, v, 0, owner - {f});
  }
}
