/** One pipe shared by any number of readers and writers, as a step system.  A step is
    one stay inside pipe.lock, and the effects are those of Pipe.Buffer's methods. */
module PipeSteps {
  import opened Wrappers
  import opened Blocks
  import opened Pipe

  type Pid = nat

  /** Where a process stands; a writer has stored i bytes of src, and `sent` is what it had sent
      before this call. */
  type Local = l: Place | l.Writing? ==> l.i <= |l.src| witness Outside

  datatype Place =
    | Outside
    | Writing(src: seq<Byte>, i: nat, sent: seq<Byte>, asleep: bool)
    | Reading(n: nat, asleep: bool)

  datatype State = State(
    queue: seq<Byte>,
    readopen: bool,
    writeopen: bool,
    at: map<Pid, Local>,
    killed: set<Pid>,
    stored: seq<(Pid, Byte)>,     // every byte stored, in order, with its writer
    taken: seq<Byte>)             // every byte read, in order

  datatype Action =
    | BeginWrite(p: Pid, src: seq<Byte>)
    | BeginRead(p: Pid, n: nat)
    | Run(p: Pid)                 // an awake process inside takes the lock
    | Kill(p: Pid)
    | CloseWrite                  // pipeclose, once no open file refers to the end
    | CloseRead

  function Init(pids: set<Pid>): (s: State)
  {
    State([], true, true, map p | p in pids :: Outside, {}, [], [])
  }

  function At(s: State, p: Pid): (l: Local)
  {
    if p in s.at then s.at[p] else Outside
  }

  function Woken(l: Local): (r: Local)
  {
    if l.Outside? then l else l.(asleep := false)
  }

  /** wakeup(&p->nread) and wakeup(&p->nwrite). */
  function WakeReaders(at: map<Pid, Local>): (r: map<Pid, Local>)
  {
    map p | p in at :: if at[p].Reading? then Woken(at[p]) else at[p]
  }

  function WakeWriters(at: map<Pid, Local>): (r: map<Pid, Local>)
  {
    map p | p in at :: if at[p].Writing? then Woken(at[p]) else at[p]
  }

  function Tagged(p: Pid, bytes: seq<Byte>): (r: seq<(Pid, Byte)>)
    ensures |r| == |bytes|
    ensures forall k :: 0 <= k < |r| ==> r[k] == (p, bytes[k])
  {
    seq(|bytes|, k requires 0 <= k < |bytes| => (p, bytes[k]))
  }

  function Bytes(stored: seq<(Pid, Byte)>): (r: seq<Byte>)
    ensures |r| == |stored|
    ensures forall k :: 0 <= k < |r| ==> r[k] == stored[k].1
  {
    seq(|stored|, k requires 0 <= k < |stored| => stored[k].1)
  }

  /** The bytes process p has stored, in order. */
  function SentBy(stored: seq<(Pid, Byte)>, p: Pid): (r: seq<Byte>)
  {
    if stored == [] then []
    else
      var last := stored[|stored| - 1];
      SentBy(stored[..|stored| - 1], p) + (if last.0 == p then [last.1] else [])
  }

  /** A writer's stay under the lock (Pipe.Buffer.Write). */
  function RunWriter(s: State, p: Pid): (t: State)
    requires At(s, p).Writing?
  {
    var l := s.at[p];
    var j := WriteStop(|s.queue|, l.i, |l.src|);
    var end := WriteEnd(|s.queue|, l.i, |l.src|, s.readopen, p in s.killed);
    var at := if end == Failed then s.at else WakeReaders(s.at);
    s.(queue := s.queue + l.src[l.i..j],
       stored := s.stored + Tagged(p, l.src[l.i..j]),
       at := at[p := if end == Asleep then Writing(l.src, j, l.sent, true) else Outside])
  }

  /** A reader's stay under the lock (Pipe.Buffer.Read). */
  function RunReader(s: State, p: Pid): (t: State)
    requires At(s, p).Reading?
  {
    var end := ReadEnd(|s.queue|, s.writeopen, p in s.killed);
    if end == Returned then
      var k := ReadCount(|s.queue|, s.at[p].n);
      s.(queue := s.queue[k..], taken := s.taken + s.queue[..k], at := WakeWriters(s.at)[p := Outside])
    else if end == Failed then
      s.(at := s.at[p := Outside])
    else
      s.(at := s.at[p := Reading(s.at[p].n, true)])
  }

  predicate Enabled(s: State, a: Action)
  {
    match a
    case BeginWrite(p, _) => p in s.at && s.at[p].Outside? && s.writeopen
    case BeginRead(p, _) => p in s.at && s.at[p].Outside? && s.readopen
    case Run(p) => p in s.at && !s.at[p].Outside? && !s.at[p].asleep
    case Kill(p) => p in s.at
    case CloseWrite => s.writeopen && forall p :: p in s.at ==> !s.at[p].Writing?
    case CloseRead => s.readopen && forall p :: p in s.at ==> !s.at[p].Reading?
  }

  /** What holds between steps in every run. */
  ghost predicate Inv(s: State)
  {
    && |s.queue| <= PIPESIZE
    && Bytes(s.stored) == s.taken + s.queue
    && forall p :: p in s.at ==> Settled(s, p)
  }

  /** A process inside uses an open end; a writer has stored exactly its first i bytes since
      the call began; a sleeping writer has a full pipe and a reader to wait for. */
  ghost predicate Settled(s: State, p: Pid)
  {
    var l := At(s, p);
    && (l.Reading? ==> s.readopen)
    && (l.Writing? ==>
          && s.writeopen && SentBy(s.stored, p) == l.sent + l.src[..l.i]
          && (l.asleep ==> |s.queue| == PIPESIZE && s.readopen && l.i < |l.src|))
  }

  function Step(s: State, a: Action): (t: State)
    requires Enabled(s, a)
  {
    match a
    case BeginWrite(p, src) => s.(at := s.at[p := Writing(src, 0, SentBy(s.stored, p), false)])
    case BeginRead(p, n) => s.(at := s.at[p := Reading(n, false)])
    case Run(p) => if s.at[p].Writing? then RunWriter(s, p) else RunReader(s, p)
    case Kill(p) => s.(killed := s.killed + {p}, at := s.at[p := Woken(s.at[p])])
    case CloseWrite => s.(writeopen := false, at := WakeReaders(s.at))
    case CloseRead => s.(readopen := false, at := WakeWriters(s.at))
  }

  // ---- what every step keeps ---------------------------------------------------------

  lemma {:induction false} SentByAppend(stored: seq<(Pid, Byte)>, p: Pid, bytes: seq<Byte>, r: Pid)
    ensures SentBy(stored + Tagged(p, bytes), r) == SentBy(stored, r) + (if r == p then bytes else [])
    decreases |bytes|
  {
    var all := stored + Tagged(p, bytes);
    if bytes == [] {
      assert all == stored;
    } else {
      var m := |bytes| - 1;
      assert all[..|all| - 1] == stored + Tagged(p, bytes[..m]);
      SentByAppend(stored, p, bytes[..m], r);
      assert bytes == bytes[..m] + [bytes[m]];
    }
  }

  /** A stay of writer p adds to p's bytes what it copied, and to nobody else's. */
  lemma WriterSends(s: State, p: Pid, r: Pid, j: nat)
    requires At(s, p).Writing?
    requires j == WriteStop(|s.queue|, At(s, p).i, |At(s, p).src|)
    ensures r != p ==> SentBy(RunWriter(s, p).stored, r) == SentBy(s.stored, r)
    ensures r == p && SentBy(s.stored, p) == At(s, p).sent + At(s, p).src[..At(s, p).i] ==>
              SentBy(RunWriter(s, p).stored, r) == At(s, p).sent + At(s, p).src[..j]
  {
    var l := s.at[p];
    var more := l.src[l.i..j];
    SentByAppend(s.stored, p, more, r);
    PrefixGrows(l.sent, l.src, l.i, j);
    assert RunWriter(s, p).stored == s.stored + Tagged(p, more);
  }

  lemma PrefixGrows(sent: seq<Byte>, src: seq<Byte>, i: nat, j: nat)
    requires i <= j <= |src|
    ensures sent + src[..i] + src[i..j] == sent + src[..j]
  {
  }

  lemma WriterSettles(s: State, p: Pid, r: Pid)
    requires Inv(s) && At(s, p).Writing? && !At(s, p).asleep && Settled(s, p) && Settled(s, r) && r in s.at
    ensures Settled(RunWriter(s, p), r)
  {
    WriterSends(s, p, r, WriteStop(|s.queue|, s.at[p].i, |s.at[p].src|));
  }

  lemma BytesAppend(stored: seq<(Pid, Byte)>, p: Pid, bytes: seq<Byte>)
    ensures Bytes(stored + Tagged(p, bytes)) == Bytes(stored) + bytes
  {
  }

  lemma WriterKeepsInv(s: State, p: Pid)
    requires Inv(s) && Enabled(s, Run(p)) && s.at[p].Writing?
    ensures Inv(Step(s, Run(p)))
  {
    assert Settled(s, p);
    var t, l := RunWriter(s, p), s.at[p];
    var j := WriteStop(|s.queue|, l.i, |l.src|);
    BytesAppend(s.stored, p, l.src[l.i..j]);
    assert s.taken + (s.queue + l.src[l.i..j]) == s.taken + s.queue + l.src[l.i..j];
    forall r | r in t.at ensures Settled(t, r) {
      assert Settled(s, r);
      WriterSettles(s, p, r);
    }
  }

  lemma ReaderKeepsInv(s: State, p: Pid)
    requires Inv(s) && Enabled(s, Run(p)) && s.at[p].Reading?
    ensures Inv(Step(s, Run(p)))
  {
    var t := RunReader(s, p);
    forall r | r in t.at ensures Settled(t, r) { assert Settled(s, r); }
    assert Bytes(t.stored) == t.taken + t.queue;
  }

  lemma StepKeepsInv(s: State, a: Action)
    requires Inv(s) && Enabled(s, a)
    ensures Inv(Step(s, a))
  {
    if a.Run? {
      if s.at[a.p].Writing? { WriterKeepsInv(s, a.p); } else { ReaderKeepsInv(s, a.p); }
    } else {
      var t := Step(s, a);
      forall r | r in t.at ensures Settled(t, r) {
        assert Settled(s, r);
      }
    }
  }

  // ---- sleeping readers --------------------------------------------------------------

  ghost predicate ReaderAsleep(s: State)
  {
    exists p :: p in s.at && s.at[p].Reading? && s.at[p].asleep
  }

  /** Every sleeping reader has an empty pipe and a writer to wait for. */
  ghost predicate NoStrandedReader(s: State)
  {
    ReaderAsleep(s) ==> s.queue == [] && s.writeopen
  }

  /** The early return of pipewrite: more bytes than room, and the caller was killed or the
      read end is closed. */
  predicate LeavesEarly(s: State, a: Action)
    requires Enabled(s, a)
  {
    a.Run? && s.at[a.p].Writing? &&
    WriteEnd(|s.queue|, s.at[a.p].i, |s.at[a.p].src|, s.readopen, a.p in s.killed) == Failed
  }

  /** A step strands a reader exactly when a writer leaves early over a sleeping one. */
  lemma StrandsIff(s: State, a: Action)
    requires Inv(s) && NoStrandedReader(s) && Enabled(s, a)
    ensures NoStrandedReader(Step(s, a)) <==> !(LeavesEarly(s, a) && ReaderAsleep(s))
  {
    var t := Step(s, a);
    if a.Run? && s.at[a.p].Writing? {
      assert Settled(s, a.p);
      if LeavesEarly(s, a) && ReaderAsleep(s) {
        var r :| r in s.at && s.at[r].Reading? && s.at[r].asleep;
        assert r in t.at && t.at[r].Reading? && t.at[r].asleep;
        assert |t.queue| == PIPESIZE;
      } else {
        StillAsleep(s, a);
      }
    } else {
      StillAsleep(s, a);
    }
  }

  /** Who sleeps in piperead after a step slept before it, or has just found the pipe empty. */
  lemma StillAsleep(s: State, a: Action)
    requires Inv(s) && Enabled(s, a) && !(LeavesEarly(s, a) && ReaderAsleep(s))
    ensures ReaderAsleep(Step(s, a)) && !ReaderAsleep(s) ==> s.queue == [] && s.writeopen && Step(s, a).queue == [] && Step(s, a).writeopen
    ensures ReaderAsleep(Step(s, a)) && ReaderAsleep(s) && s.queue == [] && s.writeopen ==> Step(s, a).queue == [] && Step(s, a).writeopen
  {
    var t := Step(s, a);
    if ReaderAsleep(t) {
      var r :| r in t.at && t.at[r].Reading? && t.at[r].asleep;
      if s.at[r].Reading? && s.at[r].asleep { assert ReaderAsleep(s); }
    }
  }

  // ---- whole runs --------------------------------------------------------------------

  /** The states a sequence of actions goes through. */
  ghost predicate Runs(s: State, acts: seq<Action>, t: State)
    decreases |acts|
  {
    if acts == [] then t == s
    else Enabled(s, acts[0]) && Runs(Step(s, acts[0]), acts[1..], t)
  }

  /** No step of the run strands a reader: no writer leaves early over a sleeping one. */
  ghost predicate Polite(s: State, acts: seq<Action>)
    decreases |acts|
  {
    acts == [] || (Enabled(s, acts[0]) && !(LeavesEarly(s, acts[0]) && ReaderAsleep(s)) && Polite(Step(s, acts[0]), acts[1..]))
  }

  lemma InitHolds(pids: set<Pid>)
    ensures Inv(Init(pids)) && NoStrandedReader(Init(pids))
  {
    forall p | p in pids ensures Settled(Init(pids), p) { }
  }

  lemma {:induction false} RunKeepsInv(s: State, acts: seq<Action>, t: State)
    requires Inv(s) && Runs(s, acts, t)
    ensures Inv(t)
    decreases |acts|
  {
    if acts != [] {
      StepKeepsInv(s, acts[0]);
      RunKeepsInv(Step(s, acts[0]), acts[1..], t);
    }
  }

  lemma {:induction false} PoliteRun(s: State, acts: seq<Action>, t: State)
    requires Inv(s) && NoStrandedReader(s) && Runs(s, acts, t) && Polite(s, acts)
    ensures NoStrandedReader(t)
    decreases |acts|
  {
    if acts != [] {
      StepKeepsInv(s, acts[0]);
      StrandsIff(s, acts[0]);
      PoliteRun(Step(s, acts[0]), acts[1..], t);
    }
  }

  /** Who was killed does not sleep on the pipe. */
  ghost predicate NoneSleepsKilled(s: State)
  {
    forall p :: p in s.at && p in s.killed && !s.at[p].Outside? ==> !s.at[p].asleep
  }

  lemma {:induction false} StepKilled(s: State, a: Action)
    requires NoneSleepsKilled(s) && Enabled(s, a)
    ensures NoneSleepsKilled(Step(s, a))
  {
  }

  /** In every run. */
  lemma {:induction false} KilledDoNotSleep(s: State, acts: seq<Action>, t: State)
    requires NoneSleepsKilled(s) && Runs(s, acts, t)
    ensures NoneSleepsKilled(t)
    decreases |acts|
  {
    if acts != [] {
      StepKilled(s, acts[0]);
      KilledDoNotSleep(Step(s, acts[0]), acts[1..], t);
    }
  }

  /** The stream: in every run, what has been read is a prefix of what has been stored, the
      rest is in the pipe and fits in it; a freed pipe has nobody inside; a sleeping writer
      has a full pipe and an open read end; nobody who was killed sleeps. */
  lemma PipeStream(pids: set<Pid>, acts: seq<Action>, t: State)
    requires Runs(Init(pids), acts, t)
    ensures NoneSleepsKilled(t)
    ensures t.taken <= Bytes(t.stored) && Bytes(t.stored) == t.taken + t.queue && |t.queue| <= PIPESIZE
    ensures !t.readopen && !t.writeopen ==> forall p :: p in t.at ==> t.at[p].Outside?
    ensures forall p :: p in t.at && t.at[p].Writing? && t.at[p].asleep ==> |t.queue| == PIPESIZE && t.readopen
  {
    InitHolds(pids);
    RunKeepsInv(Init(pids), acts, t);
    KilledDoNotSleep(Init(pids), acts, t);
    forall p | p in t.at ensures Settled(t, p) { }
  }

  /** In every run without an early return over a sleeping reader, a sleeping reader has an
      empty pipe and an open write end, so no reader and writer sleep at once. */
  lemma NobodyStranded(pids: set<Pid>, acts: seq<Action>, t: State)
    requires Runs(Init(pids), acts, t) && Polite(Init(pids), acts)
    ensures NoStrandedReader(t)
    ensures forall p, r :: p in t.at && r in t.at && t.at[p].Writing? && t.at[p].asleep && t.at[r].Reading? ==> !t.at[r].asleep
  {
    InitHolds(pids);
    PoliteRun(Init(pids), acts, t);
    PipeStream(pids, acts, t);
  }

  /** What a call returns when its stay ends the call. */
  function Result(s: State, p: Pid): (r: Option<int>)
    requires Enabled(s, Run(p))
  {
    var l := s.at[p];
    var end := if l.Writing? then WriteEnd(|s.queue|, l.i, |l.src|, s.readopen, p in s.killed)
               else ReadEnd(|s.queue|, s.writeopen, p in s.killed);
    if end == Asleep then None
    else if end == Failed then Some(-1)
    else if l.Writing? then Some(|l.src|)
    else Some(ReadCount(|s.queue|, l.n))
  }

  /** End of file: a read of n > 0 returns 0 exactly when the pipe is empty and the write end
      closed; a read that returns k took the k oldest bytes, and one that took fewer than n has
      emptied the pipe. */
  lemma ReadResult(s: State, p: Pid)
    requires Inv(s) && Enabled(s, Run(p)) && s.at[p].Reading? && s.at[p].n > 0
    ensures Result(s, p) == Some(0) <==> s.queue == [] && !s.writeopen
    ensures Result(s, p) == Some(-1) <==> s.queue == [] && s.writeopen && p in s.killed
    ensures Result(s, p) == None <==> At(Step(s, Run(p)), p).Reading?
    ensures var t, k := Step(s, Run(p)), if Result(s, p).Some? && Result(s, p).value > 0 then Result(s, p).value else 0;
            k <= |s.queue| && t.taken == s.taken + s.queue[..k] && t.queue == s.queue[k..]
    ensures var r := Result(s, p);
            r.Some? && r.value >= 0 ==> r.value <= s.at[p].n && (r.value == s.at[p].n || Step(s, Run(p)).queue == [])
  {
  }

  /** A write that returns n has put its n bytes, in order and once each, after everything the
      process had sent before the call, whatever the others did meanwhile; one that fails has
      put a proper prefix. */
  lemma WriteResult(s: State, p: Pid)
    requires Inv(s) && Enabled(s, Run(p)) && s.at[p].Writing?
    ensures var l, sent, r := s.at[p], SentBy(Step(s, Run(p)).stored, p), Result(s, p);
            && (r.Some? && r.value >= 0 ==> r.value == |l.src| && sent == l.sent + l.src)
            && (r == Some(-1) ==> exists j :: 0 <= j < |l.src| && sent == l.sent + l.src[..j])
            && (r == None ==> At(Step(s, Run(p)), p).Writing? && At(Step(s, Run(p)), p).sent == l.sent)
  {
    assert Settled(s, p);
    var l := s.at[p];
    WriterSends(s, p, p, WriteStop(|s.queue|, l.i, |l.src|));
    assert l.src[..|l.src|] == l.src;
  }

  /** The buffer is that of the state. */
  ghost predicate Same(b: Buffer, s: State)
    requires b.Valid()
    reads b, b.data
  {
    b.Queue() == s.queue && b.readopen == s.readopen && b.writeopen == s.writeopen
  }

  /** A step done on a buffer, by pipewrite, piperead or pipeclose: the buffer stays that of the state,
      and the call ends as Result says, with the bytes the reader took; it wakes whom the step wakes. */
  method Perform(b: Buffer, s: State, a: Action) returns (r: Option<int>, got: seq<Byte>, woke: bool)
    requires b.Valid() && Same(b, s) && Inv(s) && Enabled(s, a)
    modifies b, b.data
    ensures b.Valid() && Same(b, Step(s, a))
    ensures a.Run? ==> r == Result(s, a.p) && Step(s, a).taken == s.taken + got
    ensures a.Run? ==> forall q :: q in s.at && q != a.p ==>
              Step(s, a).at[q] == if !woke then s.at[q] else if s.at[a.p].Writing? then WakeReaders(s.at)[q] else WakeWriters(s.at)[q]
    ensures a == CloseWrite ==> !b.writeopen && b.readopen == s.readopen
    ensures a == CloseRead ==> !b.readopen && b.writeopen == s.writeopen
  {
    r, got, woke := None, [], false;
    match a
    case Run(p) =>
      var end;
      if s.at[p].Writing? {
        var i;
        assert Settled(s, p);
        i, end, woke := b.Write(s.at[p].src, s.at[p].i, p in s.killed);
        r := Some(i);
      } else {
        got, end, woke := b.Read(s.at[p].n, p in s.killed);
        r := Some(|got|);
      }
      r := if end == Asleep then None else if end == Failed then Some(-1) else r;
    case CloseWrite =>
      var freed := b.Close(true);
    case CloseRead =>
      var freed := b.Close(false);
    case BeginWrite(_, _) =>
    case BeginRead(_, _) =>
    case Kill(_) =>
  }

  function Repeated(n: nat): (r: seq<Byte>)
    ensures |r| == n
  {
    seq(n, k => 0)
  }

  /** Process 1 sleeps in a read of the empty pipe; process 2 has started to write src. */
  lemma SleeperAndWriter(src: seq<Byte>) returns (acts: seq<Action>, t: State)
    ensures |acts| == 3 && Inv(t) && forall more, u :: Runs(t, more, u) ==> Runs(Init({1, 2}), acts + more, u)
    ensures t == State([], true, true, map[1 := Reading(1, true), 2 := Writing(src, 0, [], false)], {}, [], [])
  {
    acts := [BeginRead(1, 1), Run(1), BeginWrite(2, src)];
    var s0 := Init({1, 2});
    InitHolds({1, 2});
    StepKeepsInv(s0, acts[0]);
    var s1 := Step(s0, acts[0]);
    StepKeepsInv(s1, acts[1]);
    var s2 := Step(s1, acts[1]);
    StepKeepsInv(s2, acts[2]);
    t := Step(s2, acts[2]);
    assert t.at == map[1 := Reading(1, true), 2 := Writing(src, 0, [], false)];
    forall more, u | Runs(t, more, u) ensures Runs(s0, acts + more, u) {
      RunsCons(s2, acts[2], more, u);
      RunsCons(s1, acts[1], [acts[2]] + more, u);
      RunsCons(s0, acts[0], [acts[1]] + ([acts[2]] + more), u);
      assert acts + more == [acts[0]] + ([acts[1]] + ([acts[2]] + more));
    }
  }

  lemma RunsCons(s: State, a: Action, more: seq<Action>, u: State)
    requires Enabled(s, a) && Runs(Step(s, a), more, u)
    ensures Runs(s, [a] + more, u)
  {
    assert ([a] + more)[1..] == more;
  }

  /** The early return does strand a reader: process 1 sleeps on the empty pipe, process 2,
      killed, stores 512 of 513 bytes and leaves. */
  lemma EarlyReturnStrands() returns (acts: seq<Action>, t: State)
    ensures Runs(Init({1, 2}), acts, t) && !NoStrandedReader(t) && |t.queue| == PIPESIZE
    ensures forall p :: p in t.at ==> t.at[p].Outside? || t.at[p].asleep
  {
    var s;
    acts, s := SleeperAndWriter(Repeated(PIPESIZE + 1));
    var s1 := Step(s, Kill(2));
    StepKeepsInv(s, Kill(2));
    t := Step(s1, Run(2));
    RunsCons(s1, Run(2), [], t);
    RunsCons(s, Kill(2), [Run(2)] + [], t);
    acts := acts + ([Kill(2)] + ([Run(2)] + []));
    assert t.at[1] == Reading(1, true);
  }
}
