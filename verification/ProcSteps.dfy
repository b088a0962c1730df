/** Every run of the process table: any number of processors, any interleaving of the
    regions under ptable.lock, and of fork's steps outside it. */
module ProcSteps {
  import opened Wrappers
  import opened ProcTable

  /** A process inside fork: the entry it got from allocproc, and whether np->parent is set. */
  datatype Pc = Idle | InFork(np: nat, linked: bool)

  datatype State = State(t: seq<Proc>, nextpid: nat, init: nat, pc: seq<Pc>)

  datatype Action =
    | Schedule(p: nat)
    | Yield(p: nat)
    | Alloc(p: nat, np: nat)          // fork: allocproc
    | ForkFails(p: nat)               // no kernel stack, or copyuvm failed
    | Link(p: nat)                    // np->parent = proc, without the lock
    | Launch(p: nat)                  // np->state = RUNNABLE
    | Exit(p: nat)
    | WaitReap(p: nat, z: nat)
    | WaitSleep(p: nat)
    | Sleep(p: nat, address: nat)     // sleep on anything but a table entry
    | Wakeup(address: nat)
    | Kill(pid: nat, k: nat)

  predicate Shape(s: State)
  {
    |s.t| == NPROC && |s.pc| == NPROC && s.init < NPROC
  }

  predicate IsInit(s: State)
  {
    && Shape(s) && s.init == 0 && s.nextpid == 2 && s.t[0] == Proc(Runnable, 1, None, None, false)
    && (forall k :: 1 <= k < NPROC ==> s.t[k] == EMPTY)
    && (forall k :: 0 <= k < NPROC ==> s.pc[k] == Pc.Idle)
  }

  predicate Acts(s: State, p: nat)
  {
    Shape(s) && p < NPROC && s.t[p].state == Running
  }

  ghost predicate Enabled(s: State, a: Action)
  {
    Shape(s) &&
    match a
    case Schedule(p) => p < NPROC && s.t[p].state == Runnable
    case Yield(p) => Acts(s, p)
    case Alloc(p, np) => Acts(s, p) && s.pc[p].Idle? && np < NPROC && s.t[np].state == Unused
                         && forall k :: 0 <= k < np ==> s.t[k].state != Unused
    case ForkFails(p) => Acts(s, p) && s.pc[p].InFork? && !s.pc[p].linked && s.pc[p].np < NPROC
    case Link(p) => Acts(s, p) && s.pc[p].InFork? && !s.pc[p].linked && s.pc[p].np < NPROC
    case Launch(p) => Acts(s, p) && s.pc[p].InFork? && s.pc[p].linked && s.pc[p].np < NPROC
    case Exit(p) => Acts(s, p) && s.pc[p].Idle? && p != s.init
    case WaitReap(p, z) => Acts(s, p) && s.pc[p].Idle? && z < NPROC && ZombieChild(s.t[z], p) && !HasZombie(s.t, p, z)
    case WaitSleep(p) => Acts(s, p) && s.pc[p].Idle? && !HasZombie(s.t, p, NPROC) && !s.t[p].killed
                         && exists k :: 0 <= k < NPROC && IsChild(s.t[k], p)
    case Sleep(p, _) => Acts(s, p) && s.pc[p].Idle?
    case Wakeup(_) => true
    case Kill(pid, k) => FirstWith(s.t, pid, k)
  }

  ghost function ExitTable(t: seq<Proc>, p: nat, init: nat): (r: seq<Proc>)
    requires p < |t| == NPROC
    ensures |r| == NPROC
    ensures forall k :: 0 <= k < NPROC ==> r[k] == AfterExit(t[k], k == p, p, t[p].parent, init, HasZombie(t, p, NPROC))
  {
    var w := HasZombie(t, p, NPROC);
    seq(NPROC, k requires 0 <= k < NPROC => AfterExit(t[k], k == p, p, t[p].parent, init, w))
  }

  ghost function Step(s: State, a: Action): (r: State)
    requires Enabled(s, a)
  {
    match a
    case Schedule(p) => s.(t := s.t[p := s.t[p].(state := Running, chan := None)])
    case Yield(p) => s.(t := s.t[p := s.t[p].(state := Runnable)])
    case Alloc(p, np) => s.(t := s.t[np := s.t[np].(state := Embryo, pid := s.nextpid)], nextpid := s.nextpid + 1,
                            pc := s.pc[p := InFork(np, false)])
    case ForkFails(p) => s.(t := s.t[s.pc[p].np := s.t[s.pc[p].np].(state := Unused)], pc := s.pc[p := Pc.Idle])
    case Link(p) => s.(t := s.t[s.pc[p].np := s.t[s.pc[p].np].(parent := Some(p))], pc := s.pc[p := InFork(s.pc[p].np, true)])
    case Launch(p) => s.(t := s.t[s.pc[p].np := s.t[s.pc[p].np].(state := Runnable)], pc := s.pc[p := Pc.Idle])
    case Exit(p) => s.(t := ExitTable(s.t, p, s.init))
    case WaitReap(p, z) => s.(t := s.t[z := Reaped(s.t[z])])
    case WaitSleep(p) => s.(t := s.t[p := Slept(s.t[p], Entry(p))])
    case Sleep(p, address) => s.(t := s.t[p := Slept(s.t[p], Elsewhere(address))])
    case Wakeup(address) => s.(t := Wake(s.t, Elsewhere(address)))
    case Kill(pid, k) => s.(t := s.t[k := Struck(s.t[k])])
  }

  /** The step is one region of proc.c as a whole. */
  predicate IsRegion(a: Action)
  {
    a.Alloc? || a.Exit? || a.WaitReap? || a.WaitSleep? || a.Wakeup? || a.Kill?
  }

  /** The table is that of the state. */
  ghost predicate Same(t: Table, s: State)
    reads t
  {
    t.proc == s.t && t.nextpid == s.nextpid && t.initproc == s.init
  }

  /** Such a step is what the table's own method does. */
  method Perform(t: Table, s: State, a: Action)
    requires t.Valid() && Same(t, s) && Enabled(s, a) && IsRegion(a)
    modifies t
    ensures t.Valid() && Same(t, Step(s, a))
  {
    match a {
      case Alloc(_, np) =>
        var r := t.AllocProc();
        assert r == Some(np);
      case Exit(p) =>
        t.Exit(p);
        assert t.proc == ExitTable(s.t, p, s.init);
      case WaitReap(p, z) =>
        var v, pid := t.Wait(p);
        assert v == Reap(z);
      case WaitSleep(p) =>
        var v, pid := t.Wait(p);
        assert v == MustSleep;
      case Wakeup(address) =>
        t.Wakeup1(Elsewhere(address));
      case Kill(pid, k) =>
        var ok := t.Kill(pid);
    }
  }

  // ---- the invariant -------------------------------------------------------------------

  /** Entry q has a living parent with a smaller pid, or no parent if it is unused. */
  ghost predicate Family(s: State, q: nat)
    requires Shape(s) && q < NPROC
  {
    var x := s.t[q];
    && x.pid < s.nextpid && (!x.state.Unused? ==> x.pid >= 1)
    && (x.state.Unused? ==> x.parent == None)
    && (x.state.Embryo? ==> (x.parent.Some? ==> x.parent.value < NPROC && s.pc[x.parent.value] == InFork(q, true)))
    && (q == s.init ==> Live(x) && x.pid == 1 && x.parent == None)
    && (q != s.init && (Live(x) || x.state.Zombie?) ==> HasParent(s, q))
  }

  ghost predicate HasParent(s: State, q: nat)
    requires Shape(s) && q < NPROC
  {
    var r := s.t[q].parent;
    r.Some? && r.value < NPROC && Live(s.t[r.value]) && s.t[r.value].pid < s.t[q].pid
  }

  /** A process in fork owns its embryo. */
  ghost predicate Forks(s: State, p: nat)
    requires Shape(s) && p < NPROC
  {
    var c := s.pc[p];
    c.InFork? ==>
      && c.np < NPROC && c.np != p && c.np != s.init && (s.t[p].state.Running? || s.t[p].state.Runnable?)
      && s.t[c.np].state == Embryo && s.t[c.np].parent == (if c.linked then Some(p) else None)
      && s.t[p].pid < s.t[c.np].pid
  }

  /** Nobody asleep in wait has the zombie z for a child. */
  ghost predicate Heard(s: State, z: nat)
    requires Shape(s) && z < NPROC
  {
    var x := s.t[z];
    x.state.Zombie? && x.parent.Some? && x.parent.value < NPROC ==> !InWait(s.t[x.parent.value], x.parent.value)
  }

  predicate InWait(x: Proc, p: nat)
  {
    x.state == Sleeping && x.chan == Some(Entry(p))
  }

  /** Table entries are slept on only by their owners, in wait. */
  ghost predicate OwnChannel(s: State, q: nat)
    requires Shape(s) && q < NPROC
  {
    s.t[q].state == Sleeping && s.t[q].chan.Some? && s.t[q].chan.value.Entry? ==> s.t[q].chan.value.slot == q
  }

  /** No two entries have one pid, and no two processes fork one entry. */
  ghost predicate Different(s: State, p: nat, q: nat)
    requires Shape(s) && p < q < NPROC
  {
    && (s.t[p].pid == s.t[q].pid ==> s.t[p].pid == 0)
    && (s.pc[p].InFork? && s.pc[q].InFork? ==> s.pc[p].np != s.pc[q].np)
  }

  ghost predicate Inv(s: State)
  {
    && Shape(s)
    && (forall p, q :: 0 <= p < q < NPROC ==> Different(s, p, q))
    && (forall q :: 0 <= q < NPROC ==> Sound(s, q))
  }

  ghost predicate Sound(s: State, q: nat)
    requires Shape(s) && q < NPROC
  {
    Family(s, q) && Forks(s, q) && Heard(s, q) && OwnChannel(s, q)
  }

  lemma InitHolds(s: State)
    requires IsInit(s)
    ensures Inv(s)
  {
  }

  // ---- one lemma a step ------------------------------------------------------------------

  /** From s to r, entry q keeps its place in the family: at most it moves among the living
      states, and it falls asleep in wait only without a zombie child. */
  ghost predicate Mild(s: State, r: State, q: nat)
    requires Shape(s) && Shape(r) && q < NPROC
  {
    var x, y := s.t[q], r.t[q];
    && y.pid == x.pid && y.parent == x.parent && (y.state == x.state || (Live(x) && Live(y)))
    && (s.pc[q].InFork? && y.state != x.state ==> y.state.Running? || y.state.Runnable?)
    && OwnChannel(r, q)
    && (InWait(y, q) ==> InWait(x, q) || !HasZombie(s.t, q, NPROC))
  }

  lemma MildKeeps(s: State, r: State)
    requires Inv(s) && Shape(r) && r == s.(t := r.t) && forall q :: 0 <= q < NPROC ==> Mild(s, r, q)
    ensures Inv(r)
  {
    forall q | 0 <= q < NPROC ensures Sound(r, q) {
      assert Sound(s, q) && Mild(s, r, q);
      var p := s.t[q].parent;
      if p.Some? && p.value < NPROC { assert Mild(s, r, p.value) && Sound(s, p.value); }
      if s.pc[q].InFork? { assert Mild(s, r, s.pc[q].np); }
      assert s.t[q].state.Zombie? && p.Some? ==> ZombieChild(s.t[q], p.value);
    }
    forall x, y | 0 <= x < y < NPROC ensures Different(r, x, y) {
      assert Mild(s, r, x) && Mild(s, r, y) && Different(s, x, y);
    }
  }

  lemma LocalKeeps(s: State, a: Action)
    requires Inv(s) && Enabled(s, a) && (a.Schedule? || a.Yield? || a.Sleep? || a.WaitSleep? || a.Kill? || a.Wakeup?)
    ensures Inv(Step(s, a))
  {
    var r := Step(s, a);
    forall q | 0 <= q < NPROC ensures Mild(s, r, q) {
      assert Sound(s, q);
    }
    MildKeeps(s, r);
  }

  lemma {:induction false} AllocKeeps(s: State, p: nat, np: nat)
    requires Inv(s) && Enabled(s, Alloc(p, np))
    ensures Inv(Step(s, Alloc(p, np)))
  {
    var r := Step(s, Alloc(p, np));
    assert Sound(s, p) && Sound(s, np);
    forall q | 0 <= q < NPROC ensures Sound(r, q) {
      AllocFamily(s, r, p, np, q);
      AllocRest(s, r, p, np, q);
    }
    forall x, y | 0 <= x < y < NPROC ensures Different(r, x, y) {
      AllocDifferent(s, r, p, np, x, y);
    }
  }

  /** From s to r process p got entry np, which was unused. */
  ghost predicate Allocated(s: State, r: State, p: nat, np: nat)
  {
    && Shape(s) && p < NPROC && np < NPROC && s.t[p].state.Running? && s.pc[p].Idle? && s.t[np].state.Unused?
    && r == State(s.t[np := s.t[np].(state := Embryo, pid := s.nextpid)], s.nextpid + 1, s.init, s.pc[p := InFork(np, false)])
  }

  lemma {:induction false} AllocFamily(s: State, r: State, p: nat, np: nat, q: nat)
    requires Allocated(s, r, p, np) && Sound(s, p) && Sound(s, np) && q < NPROC && Inv(s)
    ensures Family(r, q)
  {
    assert Sound(s, q) && Sound(s, s.init);
    var f := s.t[q].parent;
    if f.Some? && f.value < NPROC { assert Sound(s, f.value); }
  }

  lemma {:induction false} AllocRest(s: State, r: State, p: nat, np: nat, q: nat)
    requires Allocated(s, r, p, np) && Sound(s, p) && Sound(s, np) && q < NPROC && Inv(s)
    ensures Forks(r, q) && Heard(r, q) && OwnChannel(r, q)
  {
    assert Sound(s, q) && Sound(s, s.init);
  }

  lemma {:induction false} AllocDifferent(s: State, r: State, p: nat, np: nat, x: nat, y: nat)
    requires Allocated(s, r, p, np) && Inv(s) && x < y < NPROC
    ensures Different(r, x, y)
  {
    assert Sound(s, x) && Sound(s, y) && Different(s, x, y);
  }

  lemma ForkKeeps(s: State, a: Action)
    requires Inv(s) && Enabled(s, a) && (a.ForkFails? || a.Link? || a.Launch?)
    ensures Inv(Step(s, a))
  {
    var r, np := Step(s, a), s.pc[a.p].np;
    assert Sound(s, a.p) && Sound(s, np);
    assert s.t[np].state == Embryo && r.t[np] == s.t[np].(state := r.t[np].state, parent := r.t[np].parent);
    forall q | 0 <= q < NPROC ensures Sound(r, q) {
      ForkSound(s, r, a, np, q);
    }
    forall x, y | 0 <= x < y < NPROC ensures Different(r, x, y) {
      assert Different(s, x, y);
    }
  }

  lemma {:induction false} ForkSound(s: State, r: State, a: Action, np: nat, q: nat)
    requires Inv(s) && Enabled(s, a) && (a.ForkFails? || a.Link? || a.Launch?)
    requires r == Step(s, a) && np == s.pc[a.p].np && q < NPROC
    ensures Sound(r, q)
  {
    assert Sound(s, a.p) && Sound(s, np) && Sound(s, q);
    if q != a.p && s.pc[q].InFork? {
      if q < a.p { assert Different(s, q, a.p); } else { assert Different(s, a.p, q); }
    }
    var f := s.t[q].parent;
    if f.Some? && f.value < NPROC { assert Sound(s, f.value); }
    ForkFamily(s, r, a.p, np, q);
    ForkRest(s, r, a.p, np, q);
  }

  /** From s to r process p has moved on in fork, at its entry np. */
  ghost predicate Forked(s: State, r: State, p: nat, np: nat)
  {
    && Shape(s) && p < NPROC && np < NPROC && s.t[p].state.Running? && s.pc[p].InFork? && s.pc[p].np == np
    && Shape(r) && r == State(s.t[np := r.t[np]], s.nextpid, s.init, s.pc[p := r.pc[p]]) && ForkTo(s, p, np, r.pc[p], r.t[np])
  }

  ghost predicate ForkTo(s: State, p: nat, np: nat, c: Pc, x: Proc)
    requires Shape(s) && p < NPROC && np < NPROC && s.pc[p].InFork?
  {
    var linked := s.pc[p].linked;
    || (!linked && c == Pc.Idle && x == s.t[np].(state := Unused))
    || (!linked && c == InFork(np, true) && x == s.t[np].(parent := Some(p)))
    || (linked && c == Pc.Idle && x == s.t[np].(state := Runnable))
  }

  lemma {:induction false} ForkFamily(s: State, r: State, p: nat, np: nat, q: nat)
    requires Forked(s, r, p, np) && Sound(s, p) && Sound(s, np) && q < NPROC && Sound(s, q)
    requires q != p && s.pc[q].InFork? ==> s.pc[q].np != np
    requires var f := s.t[q].parent; f.Some? && f.value < NPROC ==> Sound(s, f.value)
    ensures Family(r, q)
  {
  }

  lemma {:induction false} ForkRest(s: State, r: State, p: nat, np: nat, q: nat)
    requires Forked(s, r, p, np) && Sound(s, p) && Sound(s, np) && q < NPROC && Sound(s, q)
    requires q != p && s.pc[q].InFork? ==> s.pc[q].np != np
    ensures Forks(r, q) && Heard(r, q) && OwnChannel(r, q)
  {
  }

  lemma ExitKeeps(s: State, p: nat)
    requires Inv(s) && Enabled(s, Exit(p))
    ensures Inv(Step(s, Exit(p)))
  {
    var r := Step(s, Exit(p));
    forall q | 0 <= q < NPROC ensures Sound(r, q) {
      ExitFamily(s, p, q);
      ExitHeard(s, p, q);
      ExitForks(s, p, q);
    }
    forall x, y | 0 <= x < y < NPROC ensures Different(r, x, y) {
      assert Different(s, x, y) && r.t[x].pid == s.t[x].pid && r.t[y].pid == s.t[y].pid;
    }
  }

  lemma ExitForks(s: State, p: nat, q: nat)
    requires Inv(s) && Enabled(s, Exit(p)) && q < NPROC
    ensures Forks(Step(s, Exit(p)), q) && OwnChannel(Step(s, Exit(p)), q)
  {
    assert Sound(s, q);
    var r := Step(s, Exit(p));
    if s.pc[q].InFork? {
      var np := s.pc[q].np;
      assert Forks(s, q) && s.t[np].state == Embryo;
      assert r.t[np] == s.t[np];
    }
  }

  /** The entry q after p has exited. */
  lemma ExitAt(s: State, p: nat, q: nat)
    requires Inv(s) && Enabled(s, Exit(p)) && q < NPROC
    ensures var x, y := s.t[q], Step(s, Exit(p)).t[q];
            && y.pid == x.pid && y.parent == (if IsChild(x, p) then Some(s.init) else x.parent)
            && (q == p ==> y.state == Zombie)
            && (q != p ==> y.state == x.state || (x.state.Sleeping? && y.state.Runnable?))
  {
  }

  lemma ExitFamily(s: State, p: nat, q: nat)
    requires Inv(s) && Enabled(s, Exit(p)) && q < NPROC
    ensures Family(Step(s, Exit(p)), q)
  {
    ExitAt(s, p, q);
    ExitAt(s, p, s.init);
    var f := s.t[q].parent;
    if f.Some? && f.value < NPROC { ExitAt(s, p, f.value); }
    assert Sound(s, q) && Sound(s, p) && Sound(s, s.init);
    if q < s.init { assert Different(s, q, s.init); } else if s.init < q { assert Different(s, s.init, q); }
    ExitFamilyFrom(s, Step(s, Exit(p)), p, q);
  }

  lemma ExitFamilyFrom(s: State, r: State, p: nat, q: nat)
    requires Shape(s) && Shape(r) && r == s.(t := r.t) && p < NPROC && p != s.init && q < NPROC && s.pc[p].Idle? && Live(s.t[p])
    requires Family(s, q) && Family(s, s.init) && Live(r.t[s.init]) && r.t[s.init].pid == 1 && r.t[s.init].parent == None
    requires var x, y := s.t[q], r.t[q];
             && y.pid == x.pid && y.parent == (if IsChild(x, p) then Some(s.init) else x.parent)
             && (q == p ==> y.state == Zombie)
             && (q != p ==> y.state == x.state || (x.state.Sleeping? && y.state.Runnable?))
    requires var f := s.t[q].parent; f.Some? && f.value < NPROC && f.value != p && Live(s.t[f.value]) ==>
               Live(r.t[f.value]) && r.t[f.value].pid == s.t[f.value].pid
    requires q != s.init && s.t[q].pid > 0 ==> s.t[q].pid != 1
    ensures Family(r, q)
  {
  }

  /** The exiting process's parent is awake, and so is init if it has inherited a zombie. */
  lemma {:induction false} ExitHeard(s: State, p: nat, q: nat)
    requires Inv(s) && Enabled(s, Exit(p)) && q < NPROC
    ensures Heard(Step(s, Exit(p)), q)
  {
    assert Sound(s, p) && Sound(s, q);
    if s.t[q].state.Zombie? && IsChild(s.t[q], p) { assert ZombieChild(s.t[q], p); }
  }

  lemma ReapKeeps(s: State, p: nat, z: nat)
    requires Inv(s) && Enabled(s, WaitReap(p, z))
    ensures Inv(Step(s, WaitReap(p, z)))
  {
    var r := Step(s, WaitReap(p, z));
    assert Sound(s, z);
    forall q | 0 <= q < NPROC ensures Sound(r, q) {
      assert Sound(s, q);
    }
    forall x, y | 0 <= x < y < NPROC ensures Different(r, x, y) {
      assert Different(s, x, y);
    }
  }

  lemma StepKeepsInv(s: State, a: Action)
    requires Inv(s) && Enabled(s, a)
    ensures Inv(Step(s, a))
  {
    match a {
      case Alloc(p, np) => AllocKeeps(s, p, np);
      case ForkFails(_) => ForkKeeps(s, a);
      case Link(_) => ForkKeeps(s, a);
      case Launch(_) => ForkKeeps(s, a);
      case Exit(p) => ExitKeeps(s, p);
      case WaitReap(p, z) => ReapKeeps(s, p, z);
      case _ => LocalKeeps(s, a);
    }
  }

  // ---- whole runs ------------------------------------------------------------------------

  ghost predicate Runs(s: State, acts: seq<Action>, t: State)
    decreases |acts|
  {
    if acts == [] then t == s else Enabled(s, acts[0]) && Runs(Step(s, acts[0]), acts[1..], t)
  }

  lemma {:induction false} RunKeepsInv(s: State, acts: seq<Action>, t: State)
    requires Inv(s) && Runs(s, acts, t)
    ensures Inv(t)
    decreases |acts|
  {
    if acts != [] {
      StepKeepsInv(s, acts[0]);
      RunKeepsInv(Step(s, acts[0]), acts[1..], t);
    }
  }

  /** Who was killed does not wait for children. */
  ghost predicate NoneWaitsKilled(s: State)
  {
    Shape(s) && forall q :: 0 <= q < NPROC && s.t[q].killed ==> !InWait(s.t[q], q)
  }

  lemma {:induction false} StepWaits(s: State, a: Action)
    requires NoneWaitsKilled(s) && Enabled(s, a)
    ensures NoneWaitsKilled(Step(s, a))
  {
  }

  /** In every reachable state nobody who was killed is asleep in wait. */
  lemma {:induction false} KilledDoNotWait(s: State, acts: seq<Action>, t: State)
    requires NoneWaitsKilled(s) && Runs(s, acts, t)
    ensures NoneWaitsKilled(t)
    decreases |acts|
  {
    if acts != [] {
      StepWaits(s, acts[0]);
      KilledDoNotWait(Step(s, acts[0]), acts[1..], t);
    }
  }

  /** In every reachable state: a live or zombie process other than init has a living parent,
      an unused entry has none, nobody asleep in wait has a zombie child, and a pid names at
      most one process. */
  lemma ProcessFamily(s: State, acts: seq<Action>, t: State)
    requires IsInit(s) && Runs(s, acts, t)
    ensures Shape(t) && Live(t.t[t.init])
    ensures forall q :: 0 <= q < NPROC && q != t.init && (Live(t.t[q]) || t.t[q].state.Zombie?) ==>
              t.t[q].parent.Some? && t.t[q].parent.value < NPROC && Live(t.t[t.t[q].parent.value])
    ensures forall q :: 0 <= q < NPROC && t.t[q].state.Unused? ==> t.t[q].parent == None
    ensures forall p :: 0 <= p < NPROC && InWait(t.t[p], p) ==> !HasZombie(t.t, p, NPROC)
    ensures forall p, q :: 0 <= p < q < NPROC && !t.t[p].state.Unused? && !t.t[q].state.Unused? ==> t.t[p].pid != t.t[q].pid
    ensures forall p :: 0 <= p < NPROC && t.t[p].killed ==> !InWait(t.t[p], p)
  {
    KilledDoNotWait(s, acts, t);
    InitHolds(s);
    RunKeepsInv(s, acts, t);
    assert Sound(t, t.init);
    forall q | 0 <= q < NPROC
      ensures q != t.init && (Live(t.t[q]) || t.t[q].state.Zombie?) ==> HasParent(t, q)
      ensures t.t[q].state.Unused? ==> t.t[q].parent == None
      ensures !t.t[q].state.Unused? ==> t.t[q].pid >= 1
    {
      assert Sound(t, q);
    }
    forall p, q | 0 <= p < q < NPROC && !t.t[p].state.Unused? && !t.t[q].state.Unused? ensures t.t[p].pid != t.t[q].pid {
      assert Different(t, p, q);
    }
    forall p | 0 <= p < NPROC && InWait(t.t[p], p) ensures !HasZombie(t.t, p, NPROC) {
      forall z | 0 <= z < NPROC ensures !ZombieChild(t.t[z], p) { assert Sound(t, z); }
    }
  }

  /** The n-th ancestor. */
  ghost function Ancestor(t: seq<Proc>, q: nat, n: nat): (r: Option<nat>)
    decreases n
  {
    if n == 0 then Some(q)
    else if q < |t| && t[q].parent.Some? then Ancestor(t, t[q].parent.value, n - 1)
    else None
  }

  /** The family is one tree: parents lead from every process to init. */
  lemma {:induction false} DescendsFromInit(s: State, q: nat) returns (n: nat)
    requires Inv(s) && q < NPROC && (Live(s.t[q]) || s.t[q].state.Zombie?)
    ensures Ancestor(s.t, q, n) == Some(s.init)
    decreases s.t[q].pid
  {
    assert Sound(s, q);
    if q == s.init {
      n := 0;
    } else {
      assert HasParent(s, q);
      var m := DescendsFromInit(s, s.t[q].parent.value);
      n := m + 1;
    }
  }

  lemma OneFamily(s: State, acts: seq<Action>, t: State, q: nat) returns (n: nat)
    requires IsInit(s) && Runs(s, acts, t) && q < |t.t| && (Live(t.t[q]) || t.t[q].state.Zombie?)
    ensures Ancestor(t.t, q, n) == Some(t.init)
  {
    InitHolds(s);
    RunKeepsInv(s, acts, t);
    n := DescendsFromInit(t, q);
  }
}
