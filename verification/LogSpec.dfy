/** The on-disk redo log of log.c as values: the header block, what recovery makes
    of a disk image, and the sequence of disk images a commit or a recovery passes
    through, one per sector write.  A crash leaves any one of those images. */
module LogSpec {
  import opened Blocks

  const LOGSIZE: nat := 30

  /** log.start and log.size. */
  datatype Area = Area(start: nat, size: nat)

  /** A sector outside the log area. */
  predicate Home(a: Area, s: nat)
  {
    s < a.start || a.start + a.size <= s
  }

  /** The two images agree on every sector outside the log. */
  ghost predicate SameHome(a: Area, d: Disk, e: Disk)
  {
    |d| == |e| && forall s :: 0 <= s < |d| && Home(a, s) ==> d[s] == e[s]
  }

  predicate Fits(a: Area, d: Disk)
  {
    a.size >= 1 && a.start + a.size <= |d|
  }

  /** A list of home sectors that a log of this size can hold. */
  predicate Loggable(a: Area, d: Disk, secs: seq<nat>)
  {
    && |secs| <= LOGSIZE && |secs| < a.size
    && forall i :: 0 <= i < |secs| ==> secs[i] < |d| && secs[i] < 0x1_0000_0000 && Home(a, secs[i])
  }

  /** hb->n and hb->sector[] (log.c struct logheader). */
  function HeadCount(h: Block): (n: nat)
  {
    GetWord(h, 0)
  }

  function HeadSectors(h: Block): (secs: seq<nat>)
    requires HeadCount(h) <= LOGSIZE
    ensures |secs| == HeadCount(h)
  {
    seq(HeadCount(h), i requires 0 <= i < HeadCount(h) => GetWord(h, i + 1))
  }

  /** An image whose header names only loggable sectors. */
  predicate Recoverable(a: Area, d: Disk)
  {
    && Fits(a, d)
    && HeadCount(d[a.start]) <= LOGSIZE
    && Loggable(a, d, HeadSectors(d[a.start]))
  }

  predicate Clean(a: Area, d: Disk)
  {
    Fits(a, d) && HeadCount(d[a.start]) == 0
  }

  /** Stores the first k blocks at the first k sectors, in order. */
  function Put(d: Disk, secs: seq<nat>, data: seq<Block>, k: nat): (r: Disk)
    requires k <= |secs| && k <= |data|
    requires forall i :: 0 <= i < |secs| ==> secs[i] < |d|
    ensures |r| == |d|
    ensures forall s :: 0 <= s < |d| && s !in secs[..k] ==> r[s] == d[s]
  {
    if k == 0 then d else
    var e := Put(d, secs, data, k - 1);
    assert forall s :: s in secs[..k - 1] ==> s in secs[..k];
    assert secs[k - 1] in secs[..k];
    e[secs[k - 1] := data[k - 1]]
  }

  function LogSlot(a: Area, i: nat): (s: nat)
  {
    a.start + 1 + i
  }

  /** Log block addresses start+1, start+2, ... */
  function LogSlots(a: Area, n: nat): (r: seq<nat>)
    ensures |r| == n
  {
    seq(n, i requires 0 <= i < n => LogSlot(a, i))
  }

  function LogBlocks(a: Area, d: Disk, n: nat): (r: seq<Block>)
    requires Fits(a, d) && n < a.size
    ensures |r| == n
  {
    seq(n, i requires 0 <= i < n => d[a.start + 1 + i])
  }

  /** The header block after write_head: words past the count keep their old values. */
  function PutHead(h: Block, secs: seq<nat>, k: nat): (r: Block)
    requires k <= |secs| <= LOGSIZE
    requires forall i :: 0 <= i < |secs| ==> secs[i] < 0x1_0000_0000
    ensures HeadCount(r) == |secs|
    ensures forall i :: 0 <= i < k ==> GetWord(r, i + 1) == secs[i]
    ensures forall j :: k + 1 <= j < WORDS ==> GetWord(r, j) == GetWord(h, j)
  {
    if k == 0 then SetWord(h, 0, |secs|)
    else SetWord(PutHead(h, secs, k - 1), k, secs[k - 1])
  }

  lemma HeadRoundTrip(h: Block, secs: seq<nat>)
    requires |secs| <= LOGSIZE
    requires forall i :: 0 <= i < |secs| ==> secs[i] < 0x1_0000_0000
    ensures HeadCount(PutHead(h, secs, |secs|)) == |secs|
    ensures HeadSectors(PutHead(h, secs, |secs|)) == secs
    ensures PutHead(h, secs, |secs|).words[0] == |secs| && forall i :: 0 <= i < |secs| ==> PutHead(h, secs, |secs|).words[1 + i] == secs[i]
  {
    assert forall i :: 0 <= i < |secs| ==> GetWord(PutHead(h, secs, |secs|), i + 1) == secs[i];
  }

  // ---- recovery --------------------------------------------------------------

  /** The image after k home-sector copies of install_trans. */
  function Installed(a: Area, d: Disk, k: nat): (r: Disk)
    requires Recoverable(a, d) && k <= HeadCount(d[a.start])
    ensures |r| == |d|
    ensures forall s :: 0 <= s < |d| && !Home(a, s) ==> r[s] == d[s]
  {
    var secs := HeadSectors(d[a.start]);
    Put(d, secs, LogBlocks(a, d, |secs|), k)
  }

  /** The image recover_from_log ends with: the log installed and the header cleared. */
  function Recovered(a: Area, d: Disk): (r: Disk)
    requires Recoverable(a, d)
    ensures |r| == |d| && Clean(a, r)
  {
    Installed(a, d, HeadCount(d[a.start]))[a.start := SetWord(d[a.start], 0, 0)]
  }

  /** The image after k sector writes of a recovery. */
  function RecoveryImage(a: Area, d: Disk, k: nat): (r: Disk)
    requires Recoverable(a, d) && k <= HeadCount(d[a.start]) + 1
    ensures |r| == |d|
  {
    if k <= HeadCount(d[a.start]) then Installed(a, d, k) else Recovered(a, d)
  }

  lemma InstallStep(a: Area, d: Disk, k: nat)
    requires Recoverable(a, d) && k < HeadCount(d[a.start])
    ensures Installed(a, d, k)[a.start + 1 + k] == d[a.start + 1 + k]
    ensures Installed(a, d, k + 1) == Installed(a, d, k)[HeadSectors(d[a.start])[k] := d[a.start + 1 + k]]
  {
  }

  function InstalledTrace(a: Area, d: Disk, k: nat): (t: seq<Disk>)
    requires Recoverable(a, d) && k <= HeadCount(d[a.start])
    ensures |t| == k
    ensures forall i :: 0 <= i < k ==> t[i] == Installed(a, d, i + 1)
  {
    if k == 0 then [] else InstalledTrace(a, d, k - 1) + [Installed(a, d, k)]
  }

  /** Every image recovery passes through, one per sector write. */
  function RecoveryTrace(a: Area, d: Disk): (t: seq<Disk>)
    requires Recoverable(a, d)
  {
    InstalledTrace(a, d, HeadCount(d[a.start])) + [Recovered(a, d)]
  }

  lemma RecoveryTraceAt(a: Area, d: Disk, i: nat)
    requires Recoverable(a, d) && i < |RecoveryTrace(a, d)|
    ensures |RecoveryTrace(a, d)| == HeadCount(d[a.start]) + 1
    ensures RecoveryTrace(a, d)[i] == RecoveryImage(a, d, i + 1)
  {
  }

  // ---- commit ----------------------------------------------------------------

  /** The image after write_log has copied k blocks. */
  function Filled(a: Area, d: Disk, data: seq<Block>, k: nat): (r: Disk)
    requires Fits(a, d) && k <= |data| < a.size
    ensures |r| == |d|
    ensures forall s :: 0 <= s < |d| && (Home(a, s) || s == a.start) ==> r[s] == d[s]
  {
    Put(d, LogSlots(a, |data|), data, k)
  }

  /** The image just after the header write that commits. */
  function Committed(a: Area, d: Disk, secs: seq<nat>, data: seq<Block>): (r: Disk)
    requires Fits(a, d) && Loggable(a, d, secs) && |data| == |secs|
  {
    Filled(a, d, data, |data|)[a.start := PutHead(d[a.start], secs, |secs|)]
  }

  /** The image after `writes` sector writes of a commit: log blocks, then the header,
      then the home sectors, then the header again. */
  function CommitImage(a: Area, d: Disk, secs: seq<nat>, data: seq<Block>, writes: nat): (r: Disk)
    requires Fits(a, d) && Loggable(a, d, secs) && |data| == |secs| && writes <= 2 * |secs| + 2
    ensures |r| == |d|
  {
    if writes <= |secs| then Filled(a, d, data, writes)
    else
      CommittedHead(a, d, secs, data);
      RecoveryImage(a, Committed(a, d, secs, data), writes - |secs| - 1)
  }

  lemma FillStep(a: Area, d: Disk, data: seq<Block>, k: nat)
    requires Fits(a, d) && k < |data| < a.size
    ensures Filled(a, d, data, k + 1) == Filled(a, d, data, k)[a.start + 1 + k := data[k]]
  {
  }

  function FilledTrace(a: Area, d: Disk, data: seq<Block>, k: nat): (t: seq<Disk>)
    requires Fits(a, d) && k <= |data| < a.size
    ensures |t| == k
    ensures forall i :: 0 <= i < k ==> t[i] == Filled(a, d, data, i + 1)
  {
    if k == 0 then [] else FilledTrace(a, d, data, k - 1) + [Filled(a, d, data, k)]
  }

  /** Every image commit passes through, one per sector write. */
  function CommitTrace(a: Area, d: Disk, secs: seq<nat>, data: seq<Block>): (t: seq<Disk>)
    requires Fits(a, d) && Loggable(a, d, secs) && |data| == |secs|
  {
    CommittedHead(a, d, secs, data);
    var c := Committed(a, d, secs, data);
    FilledTrace(a, d, data, |secs|) + [c] + RecoveryTrace(a, c)
  }

  lemma CommitTraceAt(a: Area, d: Disk, secs: seq<nat>, data: seq<Block>, i: nat)
    requires Fits(a, d) && Loggable(a, d, secs) && |data| == |secs| && i < 2 * |secs| + 2
    ensures |CommitTrace(a, d, secs, data)| == 2 * |secs| + 2
    ensures CommitTrace(a, d, secs, data)[i] == CommitImage(a, d, secs, data, i + 1)
  {
    var n, c := |secs|, Committed(a, d, secs, data);
    CommittedHead(a, d, secs, data);
    RecoveryTraceAt(a, c, if i > n then i - n - 1 else 0);
    if i == n {
      assert Installed(a, c, 0) == c;
    }
  }

  lemma CommittedHead(a: Area, d: Disk, secs: seq<nat>, data: seq<Block>)
    requires Fits(a, d) && Loggable(a, d, secs) && |data| == |secs|
    ensures var c := Committed(a, d, secs, data); Recoverable(a, c) && HeadSectors(c[a.start]) == secs
  {
    HeadRoundTrip(d[a.start], secs);
  }

  // ---- theorems --------------------------------------------------------------

  /** Put, k blocks of a shorter or longer prefix: two images that agree wherever the
      blocks do not land end up equal. */
  lemma {:induction false} PutAgain(d: Disk, e: Disk, secs: seq<nat>, data: seq<Block>, k: nat, s: nat)
    requires |d| == |e| && k <= |secs| && k <= |data| && s < |d|
    requires forall i :: 0 <= i < |secs| ==> secs[i] < |d|
    requires s in secs[..k] || d[s] == e[s]
    ensures Put(d, secs, data, k)[s] == Put(e, secs, data, k)[s]
  {
    if k > 0 && s != secs[k - 1] {
      if s in secs[..k] {
        var i :| 0 <= i < k && secs[i] == s;
        assert secs[..k - 1][i] == s;
      }
      PutAgain(d, e, secs, data, k - 1, s);
    }
  }

  /** Storing the sectors' own contents from v makes the image agree with v there. */
  lemma {:induction false} PutFrom(d: Disk, v: Disk, secs: seq<nat>, data: seq<Block>, k: nat, s: nat)
    requires |d| == |v| && k <= |secs| && k <= |data| && s < |d|
    requires forall i :: 0 <= i < |secs| ==> secs[i] < |d|
    requires forall i :: 0 <= i < k ==> data[i] == v[secs[i]]
    requires s in secs[..k] || d[s] == v[s]
    ensures Put(d, secs, data, k)[s] == v[s]
  {
    if k > 0 && s != secs[k - 1] {
      if s in secs[..k] {
        var i :| 0 <= i < k && secs[i] == s;
        assert secs[..k - 1][i] == s;
      }
      PutFrom(d, v, secs, data, k - 1, s);
    }
  }

  /** A crash at any write of a recovery loses nothing: recovering from there gives the
      same home sectors. */
  lemma RecoveryIsIdempotent(a: Area, d: Disk, k: nat)
    requires Recoverable(a, d) && k <= HeadCount(d[a.start]) + 1
    ensures Recoverable(a, RecoveryImage(a, d, k))
    ensures SameHome(a, Recovered(a, RecoveryImage(a, d, k)), Recovered(a, d))
  {
    if k <= HeadCount(d[a.start]) {
      InstallAgain(a, d, k);
    } else {
      EmptyRecovery(a, Recovered(a, d));
    }
  }

  lemma InstallAgain(a: Area, d: Disk, k: nat)
    requires Recoverable(a, d) && k <= HeadCount(d[a.start])
    ensures Recoverable(a, Installed(a, d, k))
    ensures SameHome(a, Recovered(a, Installed(a, d, k)), Recovered(a, d))
  {
    var secs := HeadSectors(d[a.start]);
    var n := |secs|;
    var e := Installed(a, d, k);
    var data := LogBlocks(a, d, n);
    assert LogBlocks(a, e, n) == data;
    forall s | 0 <= s < |d| && Home(a, s)
      ensures Recovered(a, e)[s] == Recovered(a, d)[s]
    {
      if s !in secs[..n] { assert s !in secs[..k]; }
      PutAgain(e, d, secs, data, n, s);
    }
  }

  /** With a zero count, recovery touches no home sector. */
  lemma EmptyRecovery(a: Area, d: Disk)
    requires Clean(a, d)
    ensures Recoverable(a, d) && SameHome(a, Recovered(a, d), d)
  {
  }

  /** A crash during the recovery begun on d can leave e. */
  ghost predicate Leaves(a: Area, d: Disk, e: Disk)
  {
    Recoverable(a, d) && exists k :: 0 <= k <= HeadCount(d[a.start]) + 1 && e == RecoveryImage(a, d, k)
  }

  /** A chain of boots: every image but the first is what some crash left of the
      recovery begun on the image before it. */
  ghost predicate BootChain(a: Area, images: seq<Disk>)
  {
    && images != []
    && Recoverable(a, images[0])
    && forall k :: 0 <= k < |images| - 1 ==> Leaves(a, images[k], images[k + 1])
  }

  lemma LeavesSameHome(a: Area, d: Disk, e: Disk)
    requires Leaves(a, d, e)
    ensures Recoverable(a, e) && SameHome(a, Recovered(a, e), Recovered(a, d))
  {
    var k :| 0 <= k <= HeadCount(d[a.start]) + 1 && e == RecoveryImage(a, d, k);
    RecoveryIsIdempotent(a, d, k);
  }

  /** However many times recovery is itself cut short, the recovery that completes
      leaves the home sectors the first one would have left. */
  lemma {:induction false} RecoverySurvivesCrashes(a: Area, images: seq<Disk>)
    requires BootChain(a, images)
    ensures Recoverable(a, images[|images| - 1])
    ensures SameHome(a, Recovered(a, images[|images| - 1]), Recovered(a, images[0]))
    decreases |images|
  {
    var m := |images| - 1;
    if m > 0 {
      RecoverySurvivesCrashes(a, images[..m]);
      LeavesSameHome(a, images[m - 1], images[m]);
    }
  }

  /** Crash atomicity: recovery from a crash at any point of a commit gives the old home
      sectors if the header write has not happened, all the new ones if it has. */
  lemma CommitIsAtomic(a: Area, d: Disk, secs: seq<nat>, data: seq<Block>, writes: nat)
    requires Clean(a, d) && Loggable(a, d, secs) && |data| == |secs| && writes <= 2 * |secs| + 2
    ensures var e := CommitImage(a, d, secs, data, writes);
            && Recoverable(a, e)
            && SameHome(a, Recovered(a, e), if writes <= |secs| then d else Put(d, secs, data, |secs|))
  {
    if writes <= |secs| {
      EmptyRecovery(a, Filled(a, d, data, writes));
    } else {
      CommittedHead(a, d, secs, data);
      CommittedHome(a, d, secs, data);
      RecoveryIsIdempotent(a, Committed(a, d, secs, data), writes - |secs| - 1);
    }
  }

  /** Image e recovers to the home sectors of d or to those of `latest`. */
  ghost predicate Whole(a: Area, e: Disk, d: Disk, latest: Disk)
  {
    Recoverable(a, e) && (SameHome(a, Recovered(a, e), d) || SameHome(a, Recovered(a, e), latest))
  }

  /** So every image a commit leaves behind recovers to all old home sectors or all new ones. */
  lemma {:induction false} TraceIsWhole(a: Area, d: Disk, secs: seq<nat>, data: seq<Block>, latest: Disk, i: nat)
    requires Clean(a, d) && Loggable(a, d, secs) && |data| == |secs| && SameHome(a, Put(d, secs, data, |secs|), latest)
    requires i < |CommitTrace(a, d, secs, data)|
    ensures Whole(a, CommitTrace(a, d, secs, data)[i], d, latest)
  {
    CommitTraceAt(a, d, secs, data, if i < 2 * |secs| + 2 then i else 0);
    CommitIsAtomic(a, d, secs, data, i + 1);
  }

  /** Filling the log writes the blocks one by one, so each can be read back. */
  lemma {:induction false} FilledAt(a: Area, d: Disk, data: seq<Block>, k: nat, i: nat)
    requires Fits(a, d) && i < k <= |data| < a.size
    ensures Filled(a, d, data, k)[a.start + 1 + i] == data[i]
  {
    if i < k - 1 {
      FilledAt(a, d, data, k - 1, i);
    }
  }

  lemma CommittedBlocks(a: Area, d: Disk, secs: seq<nat>, data: seq<Block>)
    requires Fits(a, d) && Loggable(a, d, secs) && |data| == |secs|
    ensures LogBlocks(a, Committed(a, d, secs, data), |secs|) == data
  {
    var n, c := |secs|, Committed(a, d, secs, data);
    forall i | 0 <= i < n ensures LogBlocks(a, c, n)[i] == data[i] {
      FilledAt(a, d, data, n, i);
    }
  }

  /** Once the header is written, recovery means exactly the transaction's writes. */
  lemma CommittedHome(a: Area, d: Disk, secs: seq<nat>, data: seq<Block>)
    requires Fits(a, d) && Loggable(a, d, secs) && |data| == |secs|
    requires Recoverable(a, Committed(a, d, secs, data))
    ensures SameHome(a, Recovered(a, Committed(a, d, secs, data)), Put(d, secs, data, |secs|))
  {
    var n, c := |secs|, Committed(a, d, secs, data);
    CommittedHead(a, d, secs, data);
    CommittedBlocks(a, d, secs, data);
    var r := Put(c, secs, data, n);
    assert r == Installed(a, c, n);
    forall s | 0 <= s < |d| && Home(a, s)
      ensures r[s] == Put(d, secs, data, n)[s]
    {
      assert c[s] == d[s];
      PutAgain(c, d, secs, data, n, s);
    }
  }

  // ---- whole histories -------------------------------------------------------

  /** One transaction: it commits undisturbed, or the machine stops after `writes` sector
      writes and the following boots are cut at the given points of their recoveries. */
  datatype Event =
    | Commits(secs: seq<nat>, data: seq<Block>)
    | Crashes(secs: seq<nat>, data: seq<Block>, writes: nat, cuts: seq<nat>)

  ghost predicate Possible(a: Area, size: nat, e: Event)
  {
    && a.size >= 1 && a.start + a.size <= size
    && |e.secs| <= LOGSIZE && |e.secs| < a.size && |e.data| == |e.secs|
    && (forall i :: 0 <= i < |e.secs| ==> e.secs[i] < size && e.secs[i] < 0x1_0000_0000 && Home(a, e.secs[i]))
    && (e.Crashes? ==> e.writes <= 2 * |e.secs| + 2)
  }

  /** Boots cut short at the given writes, then one recovery that completes. */
  function Reboot(a: Area, d: Disk, cuts: seq<nat>): (r: Disk)
    requires Recoverable(a, d)
    ensures |r| == |d| && Clean(a, r) && SameHome(a, r, Recovered(a, d))
    decreases |cuts|
  {
    if cuts == [] then Recovered(a, d)
    else
      var last := HeadCount(d[a.start]) + 1;
      var k := if cuts[0] < last then cuts[0] else last;
      RecoveryIsIdempotent(a, d, k);
      Reboot(a, RecoveryImage(a, d, k), cuts[1..])
  }

  /** What the disk holds once the event is over and the system is up again. */
  function After(a: Area, d: Disk, e: Event): (r: Disk)
    requires Clean(a, d) && Possible(a, |d|, e)
    ensures |r| == |d| && Clean(a, r)
  {
    match e
    case Commits(secs, data) =>
      CommittedHead(a, d, secs, data);
      CommitImage(a, d, secs, data, 2 * |secs| + 2)
    case Crashes(secs, data, writes, cuts) =>
      CommitIsAtomic(a, d, secs, data, writes);
      Reboot(a, CommitImage(a, d, secs, data, writes), cuts)
  }

  /** The transaction survives the event: its header write happened. */
  predicate Survives(e: Event)
  {
    e.Commits? || e.writes > |e.secs|
  }

  function Run(a: Area, d: Disk, events: seq<Event>): (r: Disk)
    requires Clean(a, d) && forall k :: 0 <= k < |events| ==> Possible(a, |d|, events[k])
    ensures |r| == |d| && Clean(a, r)
    decreases |events|
  {
    if events == [] then d
    else After(a, Run(a, d, events[..|events| - 1]), events[|events| - 1])
  }

  /** The surviving transactions applied in order to a plain sector array. */
  function Ideal(d: Disk, events: seq<Event>): (r: Disk)
    requires forall k :: 0 <= k < |events| ==>
               |events[k].data| == |events[k].secs| && forall i :: 0 <= i < |events[k].secs| ==> events[k].secs[i] < |d|
    ensures |r| == |d|
    decreases |events|
  {
    if events == [] then d
    else
      var e := events[|events| - 1];
      var before := Ideal(d, events[..|events| - 1]);
      if Survives(e) then Put(before, e.secs, e.data, |e.secs|) else before
  }

  /** Put respects agreement on home sectors. */
  lemma PutSameHome(a: Area, d: Disk, e: Disk, secs: seq<nat>, data: seq<Block>)
    requires SameHome(a, d, e) && |data| == |secs|
    requires forall i :: 0 <= i < |secs| ==> secs[i] < |d|
    ensures SameHome(a, Put(d, secs, data, |secs|), Put(e, secs, data, |secs|))
  {
    forall s | 0 <= s < |d| && Home(a, s)
      ensures Put(d, secs, data, |secs|)[s] == Put(e, secs, data, |secs|)[s]
    {
      PutAgain(d, e, secs, data, |secs|, s);
    }
  }

  lemma AfterIsWhole(a: Area, d: Disk, e: Event)
    requires Clean(a, d) && Possible(a, |d|, e)
    ensures SameHome(a, After(a, d, e), if Survives(e) then Put(d, e.secs, e.data, |e.secs|) else d)
  {
    match e
    case Commits(secs, data) =>
      CommittedHead(a, d, secs, data);
      CommittedHome(a, d, secs, data);
    case Crashes(secs, data, writes, cuts) =>
      CommitIsAtomic(a, d, secs, data, writes);
  }

  /** Over any history of commits, crashes and interrupted recoveries, the home sectors
      are those of the surviving transactions, each applied whole and in order. */
  lemma {:induction false} HistoryIsSerial(a: Area, d: Disk, events: seq<Event>)
    requires Clean(a, d) && forall k :: 0 <= k < |events| ==> Possible(a, |d|, events[k])
    ensures SameHome(a, Run(a, d, events), Ideal(d, events))
    decreases |events|
  {
    if events != [] {
      var m := |events| - 1;
      var e := events[m];
      HistoryIsSerial(a, d, events[..m]);
      PutSameHome(a, Run(a, d, events[..m]), Ideal(d, events[..m]), e.secs, e.data);
      AfterIsWhole(a, Run(a, d, events[..m]), e);
    }
  }
}
