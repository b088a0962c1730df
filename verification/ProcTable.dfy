/** The process table of proc.c: the regions under ptable.lock, with their scanning loops. */
module ProcTable {
  import opened Wrappers

  const NPROC: nat := 64

  datatype ProcState = Unused | Embryo | Sleeping | Runnable | Running | Zombie

  /** wait sleeps on the address of its own table entry; all other channels are elsewhere. */
  datatype Chan = Entry(slot: nat) | Elsewhere(address: nat)

  datatype Proc = Proc(state: ProcState, pid: nat, parent: Option<nat>, chan: Option<Chan>, killed: bool)

  const EMPTY := Proc(Unused, 0, None, None, false)

  predicate Live(x: Proc)
  {
    x.state.Sleeping? || x.state.Runnable? || x.state.Running?
  }

  // ---- what each region does to the table ----------------------------------------------

  function WakeOne(x: Proc, c: Chan): (r: Proc)
  {
    if x.state == Sleeping && x.chan == Some(c) then x.(state := Runnable) else x
  }

  /** wakeup1. */
  function Wake(t: seq<Proc>, c: Chan): (r: seq<Proc>)
    ensures |r| == |t| && forall k :: 0 <= k < |t| ==> r[k] == WakeOne(t[k], c)
  {
    seq(|t|, k requires 0 <= k < |t| => WakeOne(t[k], c))
  }

  predicate IsChild(x: Proc, p: nat)
  {
    x.parent == Some(p)
  }

  predicate ZombieChild(x: Proc, p: nat)
  {
    IsChild(x, p) && x.state == Zombie
  }

  /** A zombie child of p among the first n entries. */
  ghost predicate HasZombie(t: seq<Proc>, p: nat, n: nat)
  {
    exists k :: 0 <= k < n && k < |t| && ZombieChild(t[k], p)
  }

  /** An entry once p's children have been passed to init; w says whether init was woken. */
  function PassedOn(x: Proc, p: nat, init: nat, w: bool): (r: Proc)
  {
    var y := if IsChild(x, p) then x.(parent := Some(init)) else x;
    if w then WakeOne(y, Entry(init)) else y
  }

  /** An entry after p has exited. */
  function AfterExit(x: Proc, isP: bool, p: nat, parent: Option<nat>, init: nat, w: bool): (r: Proc)
  {
    var y := PassedOn(if parent.Some? then WakeOne(x, Entry(parent.value)) else x, p, init, w);
    if isP then y.(state := Zombie) else y
  }

  /** What wait's scan decides. */
  datatype Verdict = Reap(slot: nat) | NoChildren | Interrupted | MustSleep

  class Table {
    var proc: seq<Proc>
    var nextpid: nat
    var initproc: nat

    ghost predicate Valid()
      reads this
    {
      |proc| == NPROC && initproc < NPROC
    }

    /** userinit: the first entry becomes init. */
    constructor ()
      ensures Valid() && initproc == 0 && nextpid == 2
      ensures proc[0] == Proc(Runnable, 1, None, None, false)
      ensures forall k :: 1 <= k < NPROC ==> proc[k] == EMPTY
    {
      proc := seq(NPROC, k => EMPTY);
      nextpid := 1;
      initproc := 0;
      new;
      assert proc[0] == EMPTY;
      var p := AllocProc();
      initproc := p.value;
      proc := proc[p.value := proc[p.value].(state := Runnable)];
    }

    /** allocproc: the first unused entry becomes an embryo with a new pid. */
    method AllocProc() returns (r: Option<nat>)
      requires Valid()
      modifies this`proc, this`nextpid
      ensures Valid()
      ensures r.None? <==> forall k :: 0 <= k < NPROC ==> old(proc)[k].state != Unused
      ensures r.None? ==> proc == old(proc) && nextpid == old(nextpid)
      ensures r.Some? ==>
                && r.value < NPROC && old(proc)[r.value].state == Unused
                && (forall k :: 0 <= k < r.value ==> old(proc)[k].state != Unused)
                && nextpid == old(nextpid) + 1
                && proc == old(proc)[r.value := old(proc)[r.value].(state := Embryo, pid := old(nextpid))]
    {
      for p := 0 to NPROC
        invariant Valid() && proc == old(proc) && nextpid == old(nextpid)
        invariant forall k :: 0 <= k < p ==> proc[k].state != Unused
      {
        if proc[p].state == Unused {
          proc := proc[p := proc[p].(state := Embryo, pid := nextpid)];
          nextpid := nextpid + 1;
          return Some(p);
        }
      }
      return None;
    }

    /** wakeup1: everyone asleep on the channel, and nobody else. */
    method Wakeup1(c: Chan)
      requires Valid()
      modifies this`proc
      ensures Valid() && proc == Wake(old(proc), c)
      ensures forall k :: 0 <= k < NPROC ==>
                proc[k].state == (if old(proc)[k].state == Sleeping && old(proc)[k].chan == Some(c) then Runnable else old(proc)[k].state)
      ensures forall k :: 0 <= k < NPROC ==> SameBut(old(proc)[k], proc[k])
    {
      for p := 0 to NPROC
        invariant Valid()
        invariant forall k :: 0 <= k < NPROC ==> proc[k] == if k < p then WakeOne(old(proc)[k], c) else old(proc)[k]
      {
        if proc[p].state == Sleeping && proc[p].chan == Some(c) {
          proc := proc[p := proc[p].(state := Runnable)];
        }
      }
    }

    /** The region of exit: wake the parent, pass the children to init, become a zombie. */
    method Exit(me: nat)
      requires Valid() && me < NPROC && me != initproc
      modifies this`proc
      ensures Valid()
      ensures forall k :: 0 <= k < NPROC ==>
                proc[k] == AfterExit(old(proc)[k], k == me, me, old(proc)[me].parent, initproc, HasZombie(old(proc), me, NPROC))
      ensures proc[me].state == Zombie
      ensures forall k :: 0 <= k < NPROC ==> proc[k].parent == if old(proc)[k].parent == Some(me) then Some(initproc) else old(proc)[k].parent
      ensures forall k :: 0 <= k < NPROC && k != me ==>
                proc[k].state == if old(proc)[k].state == Sleeping && Called(old(proc), me, initproc, old(proc)[k].chan) then Runnable else old(proc)[k].state
    {
      if proc[me].parent.Some? {
        Wakeup1(Entry(proc[me].parent.value));
      }
      ghost var t := proc;
      assert forall k :: 0 <= k < NPROC ==> ZombieChild(t[k], me) == ZombieChild(old(proc)[k], me);
      Disinherit(me);
      proc := proc[me := proc[me].(state := Zombie)];
    }

    /** exit's loop over the table. */
    method Disinherit(me: nat)
      requires Valid() && me < NPROC && me != initproc
      modifies this`proc
      ensures Valid()
      ensures forall k :: 0 <= k < NPROC ==> proc[k] == PassedOn(old(proc)[k], me, initproc, HasZombie(old(proc), me, NPROC))
    {
      for p := 0 to NPROC
        invariant Valid()
        invariant forall k :: 0 <= k < NPROC ==>
                    proc[k] == if k < p then PassedOn(old(proc)[k], me, initproc, HasZombie(old(proc), me, p))
                               else if HasZombie(old(proc), me, p) then WakeOne(old(proc)[k], Entry(initproc)) else old(proc)[k]
      {
        if proc[p].parent == Some(me) {
          proc := proc[p := proc[p].(parent := Some(initproc))];
          if proc[p].state == Zombie {
            assert ZombieChild(old(proc)[p], me);
            Wakeup1(Entry(initproc));
          }
        }
      }
    }

    /** One pass of wait over the table, up to the return or the sleep.  A zombie child is
        reaped if there is one; otherwise the caller gives up exactly when it has no child or
        was killed. */
    method Wait(me: nat) returns (v: Verdict, pid: int)
      requires Valid() && me < NPROC
      modifies this`proc
      ensures Valid()
      ensures v.Reap? <==> HasZombie(old(proc), me, NPROC)
      ensures v.Reap? ==> v.slot < NPROC && ZombieChild(old(proc)[v.slot], me) && !HasZombie(old(proc), me, v.slot)
                          && pid == old(proc)[v.slot].pid && proc == old(proc)[v.slot := Reaped(old(proc)[v.slot])]
                          && proc[v.slot].state == Unused && proc[v.slot].pid == 0 && proc[v.slot].parent == None && !proc[v.slot].killed
      ensures v == NoChildren ==> proc == old(proc) && pid == -1 && forall k :: 0 <= k < NPROC ==> !IsChild(proc[k], me)
      ensures v == Interrupted ==> proc == old(proc) && pid == -1 && proc[me].killed
      ensures v == MustSleep ==> !old(proc)[me].killed && (exists k :: 0 <= k < NPROC && IsChild(old(proc)[k], me))
                                 && proc == old(proc)[me := Slept(old(proc)[me], Entry(me))]
                                 && proc[me].state == Sleeping && proc[me].chan == Some(Entry(me)) && SameBut(old(proc)[me].(chan := proc[me].chan), proc[me])
    {
      var havekids := false;
      for p := 0 to NPROC
        invariant proc == old(proc) && !HasZombie(proc, me, p)
        invariant havekids <==> exists k :: 0 <= k < p && IsChild(proc[k], me)
      {
        if proc[p].parent != Some(me) {
          continue;
        }
        assert IsChild(proc[p], me);
        havekids := true;
        if proc[p].state == Zombie {
          pid := proc[p].pid;
          assert ZombieChild(proc[p], me);
          proc := proc[p := proc[p].(state := Unused, pid := 0, parent := None, killed := false)];
          return Reap(p), pid;
        }
      }
      if !havekids {
        return NoChildren, -1;
      }
      if proc[me].killed {
        return Interrupted, -1;
      }
      proc := proc[me := proc[me].(chan := Some(Entry(me)), state := Sleeping)];
      return MustSleep, 0;
    }

    /** kill: the first entry with the pid is marked, and woken if it sleeps on anything. */
    method Kill(pid: nat) returns (ok: bool)
      requires Valid()
      modifies this`proc
      ensures Valid()
      ensures ok <==> exists k :: 0 <= k < NPROC && old(proc)[k].pid == pid
      ensures !ok ==> proc == old(proc)
      ensures ok ==> exists p :: 0 <= p < NPROC && FirstWith(old(proc), pid, p) && proc == old(proc)[p := Struck(old(proc)[p])]
                             && proc[p].killed && SameBut(old(proc)[p].(killed := true), proc[p])
                             && proc[p].state == if old(proc)[p].state == Sleeping then Runnable else old(proc)[p].state
    {
      for p := 0 to NPROC
        invariant proc == old(proc) && forall k :: 0 <= k < p ==> proc[k].pid != pid
      {
        if proc[p].pid == pid {
          proc := proc[p := proc[p].(killed := true)];
          if proc[p].state == Sleeping {
            proc := proc[p := proc[p].(state := Runnable)];
          }
          assert FirstWith(old(proc), pid, p) && proc == old(proc)[p := Struck(old(proc)[p])];
          return true;
        }
      }
      return false;
    }
  }

  /** The two differ in their states at most. */
  predicate SameBut(x: Proc, y: Proc)
  {
    y.pid == x.pid && y.parent == x.parent && y.chan == x.chan && y.killed == x.killed
  }

  /** Exit of p wakes who sleeps on c: its parent in wait, and init if a child is a zombie. */
  ghost predicate Called(t: seq<Proc>, p: nat, init: nat, c: Option<Chan>)
    requires p < |t|
  {
    (t[p].parent.Some? && c == Some(Entry(t[p].parent.value))) || (HasZombie(t, p, NPROC) && c == Some(Entry(init)))
  }

  function Slept(x: Proc, c: Chan): (r: Proc)
  {
    x.(chan := Some(c), state := Sleeping)
  }

  function Reaped(x: Proc): (r: Proc)
  {
    x.(state := Unused, pid := 0, parent := None, killed := false)
  }

  function Struck(x: Proc): (r: Proc)
  {
    x.(killed := true, state := if x.state == Sleeping then Runnable else x.state)
  }

  predicate FirstWith(t: seq<Proc>, pid: nat, p: nat)
  {
    p < |t| && t[p].pid == pid && forall k :: 0 <= k < p ==> t[k].pid != pid
  }
}
