/** begin_op, log_write and end_op of log.c as a step system: any number of processes,
    any interleaving.  Each region under log.lock is one step, and so is each
    log_write.  `K` bounds the new sectors one operation may log, `cap` is the first
    lh.n at which log_write panics, min(LOGSIZE, log.size - 1). */
module GroupCommit {
  import opened Sequences
  import opened LogSpec

  const MAXOPBLOCKS: nat := 10

  type Pid = nat

  /** An operation between begin_op and end_op, and how many new sectors it has logged. */
  datatype Op = Op(pid: Pid, spent: nat)

  datatype State = State(
    open: seq<Op>,          // log.outstanding of them
    logged: seq<nat>,       // lh.sector[0..lh.n]
    writers: set<Pid>,      // who logged something since the last commit
    committing: bool,
    waiting: set<Pid>,      // asleep on &log in begin_op
    panicked: bool)

  datatype Event =
    | Begin(pid: Pid)               // one pass of begin_op's loop
    | Write(i: nat, sector: nat)    // log_write by the i-th open operation
    | End(i: nat)                   // end_op up to the release of log.lock
    | Finish                        // commit has returned: committing = 0, wakeup
    | Rouse(pid: Pid)               // a sleeper woken by kill

  const INIT := State([], [], {}, false, {}, false)

  /** begin_op's test: the new operation could exhaust the log. */
  predicate NoRoom(s: State)
  {
    |s.logged| + (|s.open| + 1) * MAXOPBLOCKS > LOGSIZE
  }

  predicate IsOpen(s: State, p: Pid)
  {
    exists i :: 0 <= i < |s.open| && s.open[i].pid == p
  }

  predicate Enabled(K: nat, s: State, e: Event)
  {
    && !s.panicked
    && match e
       case Begin(p) => !IsOpen(s, p) && p !in s.waiting
       case Write(i, x) => i < |s.open| && (x in s.logged || s.open[i].spent < K)
       case End(i) => i < |s.open|
       case Finish => s.committing
       case Rouse(p) => p in s.waiting
  }

  function Step(K: nat, cap: nat, s: State, e: Event): (t: State)
    requires Enabled(K, s, e)
  {
    match e
    case Begin(p) =>
      if s.committing || NoRoom(s) then s.(waiting := s.waiting + {p})
      else s.(open := s.open + [Op(p, 0)])
    case Write(i, x) =>
      if |s.logged| >= cap then s.(panicked := true)
      else if x in s.logged then s.(writers := s.writers + {s.open[i].pid})
      else s.(open := s.open[i := s.open[i].(spent := s.open[i].spent + 1)],
              logged := s.logged + [x],
              writers := s.writers + {s.open[i].pid})
    case End(i) =>
      if s.committing then s.(panicked := true)
      else if |s.open| == 1 then s.(open := [], committing := true)
      else s.(open := Cut(s.open, i), waiting := {})
    case Finish => s.(logged := [], writers := {}, committing := false, waiting := {})
    case Rouse(p) => s.(waiting := s.waiting - {p})
  }

  ghost predicate Runs(K: nat, cap: nat, s: State, es: seq<Event>, t: State)
    decreases |es|
  {
    if es == [] then s == t
    else Enabled(K, s, es[0]) && Runs(K, cap, Step(K, cap, s, es[0]), es[1..], t)
  }

  ghost predicate Reachable(K: nat, cap: nat, s: State)
  {
    exists es :: Runs(K, cap, INIT, es, s)
  }

  /** What the open operations may still log. */
  function Unspent(K: nat, ops: seq<Op>): (n: int)
  {
    if ops == [] then 0 else K - ops[0].spent + Unspent(K, ops[1..])
  }

  /** The most sectors a transaction can hold: two operations on top of the MAXOPBLOCKS that
      begin_op still admits them at, or three on an empty log. */
  function Most(K: nat): (n: nat)
    ensures n >= MAXOPBLOCKS + 2 * K && n >= 3 * K && (n == MAXOPBLOCKS + 2 * K || n == 3 * K)
  {
    if K <= MAXOPBLOCKS then MAXOPBLOCKS + 2 * K else 3 * K
  }

  ghost predicate Inv(K: nat, s: State)
  {
    && (forall i :: 0 <= i < |s.open| ==> s.open[i].spent <= K)
    && (s.committing ==> s.open == [])
    && (s.open == [] && !s.committing ==> s.logged == [])
    && |s.logged| + Unspent(K, s.open) <= Most(K)
    && (s.waiting != {} ==> s.committing || NoRoom(s))
  }

  lemma {:induction false} UnspentAppend(K: nat, ops: seq<Op>, o: Op)
    ensures Unspent(K, ops + [o]) == Unspent(K, ops) + K - o.spent
  {
    if ops != [] {
      assert (ops + [o])[1..] == ops[1..] + [o];
      UnspentAppend(K, ops[1..], o);
    }
  }

  lemma {:induction false} UnspentAt(K: nat, ops: seq<Op>, i: nat, o: Op)
    requires i < |ops|
    ensures Unspent(K, ops[i := o]) == Unspent(K, ops) + ops[i].spent - o.spent
    ensures Unspent(K, Cut(ops, i)) == Unspent(K, ops) - (K - ops[i].spent)
    decreases ops
  {
    if i == 0 {
      assert Cut(ops, 0) == ops[1..];
      assert ops[0 := o][1..] == ops[1..];
    } else {
      assert ops[i := o][1..] == ops[1..][i - 1 := o];
      assert Cut(ops, i)[1..] == Cut(ops[1..], i - 1);
      UnspentAt(K, ops[1..], i - 1, o);
    }
  }

  lemma {:induction false} UnspentBound(K: nat, ops: seq<Op>)
    requires forall i :: 0 <= i < |ops| ==> ops[i].spent <= K
    ensures 0 <= Unspent(K, ops) <= |ops| * K
  {
    if ops != [] {
      UnspentBound(K, ops[1..]);
      assert |ops| * K == K + |ops[1..]| * K;
    }
  }

  lemma {:induction false} InvStep(K: nat, cap: nat, s: State, e: Event)
    requires Inv(K, s) && Enabled(K, s, e)
    ensures var t := Step(K, cap, s, e); Inv(K, t) || (t.panicked && e.Write? && |s.logged| >= cap)
  {
    match e
    case Begin(p) => BeginKeeps(K, cap, s, p);
    case Write(i, x) =>
      if |s.logged| < cap && x !in s.logged {
        UnspentAt(K, s.open, i, s.open[i].(spent := s.open[i].spent + 1));
      }
    case End(i) => UnspentAt(K, s.open, i, s.open[i]);
    case Finish =>
    case Rouse(p) =>
  }

  lemma {:induction false} BeginKeeps(K: nat, cap: nat, s: State, p: nat)
    requires Inv(K, s) && Enabled(K, s, Begin(p))
    ensures Inv(K, Step(K, cap, s, Begin(p)))
  {
    if !s.committing && !NoRoom(s) {
      UnspentAppend(K, s.open, Op(p, 0));
      UnspentBound(K, s.open);
      assert |s.open| <= 2;
      assert |s.open| == 1 ==> |s.logged| <= MAXOPBLOCKS;
      assert |s.open| == 2 ==> |s.logged| == 0;
    }
  }

  lemma {:induction false} InvRuns(K: nat, cap: nat, s: State, es: seq<Event>, t: State)
    requires Inv(K, s) && Runs(K, cap, s, es, t)
    ensures t.panicked || Inv(K, t)
    ensures t.panicked ==> s.panicked || Most(K) >= cap
    decreases |es|
  {
    if es != [] {
      var u := Step(K, cap, s, es[0]);
      InvStep(K, cap, s, es[0]);
      if u.panicked {
        UnspentBound(K, s.open);
      } else {
        InvRuns(K, cap, u, es[1..], t);
      }
    }
  }

  /** Group commit: in every reachable state a commit is in progress only when no operation
      is open, end_op's panic cannot happen, the log with the open operations' remaining
      allowance stays within Most(K), which is within the log when K keeps to MAXOPBLOCKS,
      and nobody sleeps in begin_op who could be let in. */
  lemma GroupCommitSafety(K: nat, cap: nat, s: State)
    requires Reachable(K, cap, s) && !s.panicked
    ensures s.committing ==> s.open == []
    ensures forall i :: 0 <= i < |s.open| ==> !Step(K, cap, s, End(i)).panicked
    ensures |s.logged| + Unspent(K, s.open) <= Most(K)
    ensures K <= MAXOPBLOCKS ==> Most(K) <= LOGSIZE
    ensures s.waiting != {} ==> s.committing || NoRoom(s)
  {
    var es :| Runs(K, cap, INIT, es, s);
    InvRuns(K, cap, INIT, es, s);
  }

  /** What a commit writes is settled when it starts: from the End that starts it until its
      Finish nobody adds to the log or opens an operation. */
  lemma CommitIsSettled(K: nat, cap: nat, s: State, es: seq<Event>, t: State)
    requires Reachable(K, cap, s) && s.committing && !s.panicked
    requires Runs(K, cap, s, es, t) && forall k :: 0 <= k < |es| ==> !es[k].Finish?
    ensures t.committing && t.logged == s.logged && t.writers == s.writers && t.open == []
  {
    var before :| Runs(K, cap, INIT, before, s);
    InvRuns(K, cap, INIT, before, s);
    SettledRun(K, cap, s, es, t);
  }

  lemma {:induction false} SettledRun(K: nat, cap: nat, s: State, es: seq<Event>, t: State)
    requires Inv(K, s) && s.committing && !s.panicked && Runs(K, cap, s, es, t) && forall k :: 0 <= k < |es| ==> !es[k].Finish?
    ensures t.committing && t.logged == s.logged && t.writers == s.writers && t.open == []
    decreases |es|
  {
    if es != [] {
      InvStep(K, cap, s, es[0]);
      SettledRun(K, cap, Step(K, cap, s, es[0]), es[1..], t);
    }
  }

  // ---- exactly when log_write cannot panic ---------------------------------------

  lemma {:induction false} RunsAppend(K: nat, cap: nat, s: State, es: seq<Event>, t: State, e: Event)
    requires Runs(K, cap, s, es, t) && Enabled(K, t, e)
    ensures Runs(K, cap, s, es + [e], Step(K, cap, t, e))
    decreases |es|
  {
    if es != [] {
      assert (es + [e])[0] == es[0] && (es + [e])[1..] == es[1..] + [e];
      RunsAppend(K, cap, Step(K, cap, s, es[0]), es[1..], t, e);
    }
  }

  lemma Extend(K: nat, cap: nat, s: State, e: Event)
    requires Reachable(K, cap, s) && Enabled(K, s, e)
    ensures Reachable(K, cap, Step(K, cap, s, e))
  {
    var es :| Runs(K, cap, INIT, es, s);
    RunsAppend(K, cap, INIT, es, s, e);
  }

  function FirstSectors(m: nat): (r: seq<nat>)
    ensures |r| == m && forall x :: x in r ==> x < m
  {
    if m == 0 then [] else FirstSectors(m - 1) + [m - 1]
  }

  /** Operation 0 stays open while short operations fill the log to m. */
  ghost function Busy(m: nat): (s: State)
  {
    State([Op(0, 0)], FirstSectors(m), if m == 0 then {} else {1}, false, {}, false)
  }

  /** As many as MAXOPBLOCKS sectors get in while only operation 0 is open. */
  lemma {:induction false} FillWithShortOps(K: nat, cap: nat, m: nat)
    requires 1 <= K && m <= MAXOPBLOCKS && m <= cap
    ensures Reachable(K, cap, Busy(m))
  {
    if m == 0 {
      assert Runs(K, cap, INIT, [], INIT);
      Extend(K, cap, INIT, Begin(0));
      assert Step(K, cap, INIT, Begin(0)) == Busy(0);
    } else {
      FillWithShortOps(K, cap, m - 1);
      var s := Busy(m - 1);
      Extend(K, cap, s, Begin(1));
      var t := Step(K, cap, s, Begin(1));
      Extend(K, cap, t, Write(1, m - 1));
      var u := Step(K, cap, t, Write(1, m - 1));
      Extend(K, cap, u, End(1));
      assert Cut(u.open, 1) == [Op(0, 0)];
      assert Step(K, cap, u, End(1)) == Busy(m);
    }
  }

  /** Then two open operations each log up to K more. */
  lemma {:induction false} FillWithTwoOps(K: nat, cap: nat, m: nat) returns (s: State)
    requires 1 <= K && m <= MAXOPBLOCKS + 2 * K && m <= cap
    ensures Reachable(K, cap, s) && !s.panicked && s.open != [] && s.logged == FirstSectors(m)
    ensures m < MAXOPBLOCKS ==> s == Busy(m)
    ensures m >= MAXOPBLOCKS ==>
              && |s.open| == 2
              && s.open[1].spent == (if m <= MAXOPBLOCKS + K then m - MAXOPBLOCKS else K)
              && s.open[0].spent == (if m <= MAXOPBLOCKS + K then 0 else m - MAXOPBLOCKS - K)
  {
    if m < MAXOPBLOCKS {
      FillWithShortOps(K, cap, m);
      s := Busy(m);
    } else if m == MAXOPBLOCKS {
      FillWithShortOps(K, cap, m);
      Extend(K, cap, Busy(m), Begin(1));
      s := Step(K, cap, Busy(m), Begin(1));
    } else {
      var r := FillWithTwoOps(K, cap, m - 1);
      var i := if m <= MAXOPBLOCKS + K then 1 else 0;
      Extend(K, cap, r, Write(i, m - 1));
      s := Step(K, cap, r, Write(i, m - 1));
    }
  }

  /** On an empty log three operations of more than MAXOPBLOCKS each get in, and log up to K
      sectors each. */
  lemma {:induction false} FillWithThreeOps(K: nat, cap: nat, m: nat) returns (s: State)
    requires 1 <= K && m <= 3 * K && m <= cap
    ensures Reachable(K, cap, s) && !s.panicked && |s.open| == 3 && s.logged == FirstSectors(m)
    ensures s.open[2].spent == (if m <= K then m else K)
    ensures s.open[1].spent == (if m <= K then 0 else if m <= 2 * K then m - K else K)
    ensures s.open[0].spent == (if m <= 2 * K then 0 else m - 2 * K)
  {
    if m == 0 {
      assert Runs(K, cap, INIT, [], INIT);
      s := INIT;
      Extend(K, cap, s, Begin(0));
      s := Step(K, cap, s, Begin(0));
      Extend(K, cap, s, Begin(1));
      s := Step(K, cap, s, Begin(1));
      Extend(K, cap, s, Begin(2));
      s := Step(K, cap, s, Begin(2));
    } else {
      var r := FillWithThreeOps(K, cap, m - 1);
      var i := if m <= K then 2 else if m <= 2 * K then 1 else 0;
      Extend(K, cap, r, Write(i, m - 1));
      s := Step(K, cap, r, Write(i, m - 1));
    }
  }

  /** Some run reaches log_write's panic; end_op's is out of reach. */
  ghost predicate CanPanic(K: nat, cap: nat)
  {
    exists s :: Reachable(K, cap, s) && s.panicked
  }

  /** A state from which log_write panics, the log holding cap sectors. */
  lemma OneMoreWrite(K: nat, cap: nat, s: State)
    requires 1 <= K && Reachable(K, cap, s) && !s.panicked && s.open != [] && s.logged == FirstSectors(cap)
    requires cap == 0 ==> s.open[0].spent == 0
    ensures CanPanic(K, cap)
  {
    var x := if cap == 0 then 0 else s.logged[0];
    Extend(K, cap, s, Write(0, x));
    assert Step(K, cap, s, Write(0, x)).panicked;
  }

  /** log_write can panic exactly when its threshold is at most the most sectors a transaction
      can hold; an already-logged sector is still refused when the log is full. */
  lemma NeverPanicsIff(K: nat, cap: nat)
    requires 1 <= K
    ensures CanPanic(K, cap) <==> Most(K) >= cap
  {
    if Most(K) < cap {
      forall s | Reachable(K, cap, s) ensures !s.panicked {
        var es :| Runs(K, cap, INIT, es, s);
        InvRuns(K, cap, INIT, es, s);
      }
    } else if K <= MAXOPBLOCKS {
      var s := FillWithTwoOps(K, cap, cap);
      OneMoreWrite(K, cap, s);
    } else {
      var s := FillWithThreeOps(K, cap, cap);
      OneMoreWrite(K, cap, s);
    }
  }

  /** With mkfs's nlog = LOGSIZE the threshold is LOGSIZE - 1: nine new sectors per
      operation are safe, the documented MAXOPBLOCKS and anything larger are not. */
  lemma ShippedLogSize(K: nat)
    requires 1 <= K
    ensures CanPanic(K, LOGSIZE - 1) <==> K >= MAXOPBLOCKS
  {
    NeverPanicsIff(K, LOGSIZE - 1);
  }
}
