/** log.c over the buffer cache: the in-memory header, log_write's absorption,
    commit and boot-time recovery.  What each pass writes to the disk, sector by
    sector, is stated against the traces of LogSpec. */
module Log {
  import opened Blocks
  import opened BufferCache
  import opened CacheOps
  import opened LogSpec

  lemma Append(t: seq<Disk>, x: seq<Disk>, y: Disk)
    ensures t + x + [y] == t + (x + [y])
  {
  }

  lemma Regroup(t: seq<Disk>, f: seq<Disk>, c: seq<Disk>, i: seq<Disk>, r: seq<Disk>)
    ensures t + f + c + i + r == t + (f + c + (i + r))
  {
  }

  /** The sectors from tail on, first one split off; none of them is in the log. */
  lemma SuffixFacts(a: Area, secs: seq<nat>, tail: nat)
    requires tail < |secs| && forall i :: 0 <= i < |secs| ==> Home(a, secs[i])
    ensures secs[tail] in secs[tail..]
    ensures forall t :: t in secs[tail..] ==> Home(a, t)
    ensures Distinct(secs) ==> forall t :: t in secs[tail + 1..] <==> t in secs[tail..] && t != secs[tail]
  {
    assert secs[tail..] == [secs[tail]] + secs[tail + 1..];
  }

  /** The images of a run of install_trans, one copied block after the other. */
  ghost predicate Copies(a: Area, secs: seq<nat>, hist: seq<Disk>)
  {
    && 0 < |hist| <= |secs| + 1
    && forall k :: 0 <= k < |hist| - 1 ==> CopiedBlock(a, secs[k], k, hist[k], hist[k + 1])
  }

  ghost predicate CopiedBlock(a: Area, s: nat, k: nat, d: Disk, e: Disk)
  {
    a.start + 1 + k < |d| && s < |d| && e == d[s := d[a.start + 1 + k]]
  }

  lemma {:induction false} CopiesNext(a: Area, secs: seq<nat>, hist: seq<Disk>, e: Disk)
    requires Copies(a, secs, hist) && |hist| <= |secs| && CopiedBlock(a, secs[|hist| - 1], |hist| - 1, hist[|hist| - 1], e)
    ensures Copies(a, secs, hist + [e]) && (hist + [e])[1..] == hist[1..] + [e]
  {
    forall k | 0 <= k < |hist| ensures CopiedBlock(a, secs[k], k, (hist + [e])[k], (hist + [e])[k + 1]) { }
  }

  /** They are the images of the installed log. */
  lemma {:induction false} CopiesInstall(a: Area, secs: seq<nat>, hist: seq<Disk>, k: nat)
    requires Copies(a, secs, hist) && Recoverable(a, hist[0]) && HeadSectors(hist[0][a.start]) == secs && k < |hist|
    ensures hist[k] == Installed(a, hist[0], k) && hist[1..k + 1] == InstalledTrace(a, hist[0], k)
    decreases k
  {
    if k > 0 {
      CopiesInstall(a, secs, hist, k - 1);
      assert CopiedBlock(a, secs[k - 1], k - 1, hist[k - 1], hist[k]);
      InstallStep(a, hist[0], k - 1);
      assert hist[1..k + 1] == hist[1..k] + [hist[k]];
    }
  }

  lemma {:induction false} SameShape(a: Area, d: Disk, e: Disk, secs: seq<nat>)
    requires Fits(a, d) && Loggable(a, d, secs) && |e| == |d|
    ensures Fits(a, e) && Loggable(a, e, secs)
  {
  }

  /** write_log has copied k of the blocks `data`, begun on disk d with trace t. */
  ghost predicate Filling(a: Area, d: Disk, data: seq<Block>, k: nat, t: seq<Disk>, disk: Disk, trace: seq<Disk>)
  {
    && k <= |data| < a.size && Fits(a, d)
    && disk == Filled(a, d, data, k) && trace == t + FilledTrace(a, d, data, k)
  }

  /** One block more. */
  lemma {:induction false} FilledNext(a: Area, d: Disk, data: seq<Block>, k: nat, t: seq<Disk>, prev: Disk, was: seq<Disk>) returns (disk: Disk, trace: seq<Disk>)
    requires Filling(a, d, data, k, t, prev, was) && k < |data|
    ensures Filling(a, d, data, k + 1, t, disk, trace)
    ensures a.start + 1 + k < |prev| && disk == prev[a.start + 1 + k := data[k]] && trace == was + [disk]
  {
    FillStep(a, d, data, k);
    Append(t, FilledTrace(a, d, data, k), Filled(a, d, data, k + 1));
    disk, trace := Filled(a, d, data, k + 1), t + FilledTrace(a, d, data, k + 1);
  }

  /** A store into the log area changes no home sector. */
  lemma {:induction false} LogStore(a: Area, u: Disk, v: Disk, k: nat, x: Block)
    requires SameHome(a, u, v) && k < a.size && a.start + k < |u|
    ensures SameHome(a, u[a.start + k := x], v)
  {
  }

  /** The header with sector s in it, once. */
  lemma LoggedNext(a: Area, d: Disk, secs: seq<nat>, s: nat, next: seq<nat>)
    requires Loggable(a, d, secs) && Distinct(secs) && Home(a, s) && s < |d| && s < 0x1_0000_0000
    requires |secs| < LOGSIZE && |secs| < a.size - 1
    requires next == if s in secs then secs else secs + [s]
    ensures Loggable(a, d, next) && Distinct(next) && forall t :: t in next <==> t in secs || t == s
  {
  }

  /** Blocks gathered from `latest`, which differs from d only at their sectors. */
  lemma {:induction false} PutGathered(d: Disk, latest: Disk, secs: seq<nat>, data: seq<Block>)
    requires |latest| == |d| && |data| == |secs| && forall i :: 0 <= i < |secs| ==> secs[i] < |d| && data[i] == latest[secs[i]]
    requires forall s :: 0 <= s < |d| && s !in secs ==> latest[s] == d[s]
    ensures Put(d, secs, data, |secs|) == latest
  {
    var r := Put(d, secs, data, |secs|);
    assert secs[..|secs|] == secs;
    forall s | 0 <= s < |d| ensures r[s] == latest[s] { PutFrom(d, latest, secs, data, |secs|, s); }
  }

  lemma {:induction false} ImagesWhole(a: Area, d: Disk, secs: seq<nat>, data: seq<Block>, latest: Disk, t: seq<Disk>, now: seq<Disk>)
    requires Clean(a, d) && Loggable(a, d, secs) && |data| == |secs| && SameHome(a, Put(d, secs, data, |secs|), latest)
    requires now == t + CommitTrace(a, d, secs, data)
    ensures forall i :: |t| <= i < |now| ==> Whole(a, now[i], d, latest)
  {
    forall i | |t| <= i < |now| ensures Whole(a, now[i], d, latest) {
      TraceIsWhole(a, d, secs, data, latest, i - |t|);
      assert now[i] == CommitTrace(a, d, secs, data)[i - |t|];
    }
  }

  class Log {
    const area: Area
    const cache: Bcache
    var n: nat                  // lh.n
    var sector: seq<nat>        // lh.sector[LOGSIZE]
    var outstanding: int

    ghost function Secs(): (r: seq<nat>)
      requires n <= |sector|
      reads this
    {
      sector[..n]
    }

    /** The in-memory header is one this log can hold. */
    ghost predicate Shaped()
      reads this, cache
    {
      && |sector| == LOGSIZE && n <= LOGSIZE
      && Fits(area, cache.disk)
      && Loggable(area, cache.disk, Secs())
    }

    /** The on-disk log is empty and the in-memory header agrees with the cache: the listed
        sectors are exactly the pinned ones. */
    ghost predicate Valid()
      reads this, cache
    {
      && cache.Valid() && Shaped() && Clean(area, cache.disk)
      && Distinct(Secs())
      && (forall s :: cache.Pinned(s) <==> s in Secs())
    }

    /** The pinned blocks, in header order. */
    ghost function Gather(): (data: seq<Block>)
      requires n <= |sector| && forall i :: 0 <= i < n ==> sector[i] < |cache.latest|
      reads this, cache
    {
      var secs, latest := sector, cache.latest;
      seq(n, i requires 0 <= i < |secs| && secs[i] < |latest| => latest[secs[i]])
    }

    /** initlog (log.c) at boot, on a cache that holds nothing unwritten. */
    constructor (c: Bcache, a: Area)
      requires Quiet(c) && (forall t :: !c.Pinned(t)) && Recoverable(a, c.disk)
      modifies c
      ensures Valid() && cache == c && area == a && n == 0 && outstanding == 0
      ensures c.trace == old(c.trace) + RecoveryTrace(a, old(c.disk))
      ensures c.disk == c.latest == Recovered(a, old(c.disk))
    {
      area, cache := a, c;
      n, sector := 0, seq(LOGSIZE, _ => 0);
      outstanding := 0;
      new;
      RecoverFromLog();
    }

    /** The scan of log_write for an earlier entry of the same sector. */
    method Find(s: nat) returns (i: nat)
      requires n <= |sector|
      ensures i <= n && (i < n ==> sector[i] == s)
      ensures forall k :: 0 <= k < i ==> sector[k] != s
    {
      i := 0;
      while i < n
        invariant 0 <= i <= n
        invariant forall k :: 0 <= k < i ==> sector[k] != s
      {
        if sector[i] == s {
          break;
        }
        i := i + 1;
      }
    }

    /** log_write (log.c) on a locked buffer. */
    method LogWrite(b: nat) returns (ok: bool)
      requires Valid() && b < NBUF && cache.buf[b].busy
      requires Home(area, cache.buf[b].sector) && cache.buf[b].sector < 0x1_0000_0000
      modifies this`n, this`sector, cache`buf
      ensures ok <==> old(n) < LOGSIZE && old(n) < area.size - 1 && outstanding >= 1
      ensures !ok ==> n == old(n) && sector == old(sector) && cache.buf == old(cache.buf)
      ensures ok ==>
                && Valid()
                && cache.buf == old(cache.buf)[b := old(cache.buf)[b].(dirty := true)]
                && Secs() == (if cache.buf[b].sector in old(Secs()) then old(Secs()) else old(Secs()) + [cache.buf[b].sector])
    {
      if n >= LOGSIZE || n >= area.size - 1 {
        return false;
      }
      if outstanding < 1 {
        return false;
      }
      assert Coherent(cache.buf[b], cache.disk, cache.latest);
      var s := cache.buf[b].sector;
      Record(s);
      cache.Pin(b);
      return true;
    }

    /** The header's entry for the sector. */
    method Record(s: nat)
      requires Shaped() && Distinct(Secs()) && Home(area, s) && s < |cache.disk| && s < 0x1_0000_0000 && n < LOGSIZE && n < area.size - 1
      modifies this`n, this`sector
      ensures Shaped() && Distinct(Secs()) && Secs() == (if s in old(Secs()) then old(Secs()) else old(Secs()) + [s])
      ensures forall t :: t in Secs() <==> t in old(Secs()) || t == s
    {
      var i := Find(s);
      assert i < n ==> s == Secs()[i];
      ghost var next := if s in Secs() then Secs() else Secs() + [s];
      LoggedNext(area, cache.disk, Secs(), s, next);
      sector := sector[i := s];
      if i == n {
        n := n + 1;
      }
      assert Secs() == next;
    }

    /** The header block write_head builds on top of the old one. */
    method FillHead(was: Block) returns (h: Block)
      requires |sector| == LOGSIZE && n <= LOGSIZE && forall i :: 0 <= i < n ==> sector[i] < 0x1_0000_0000
      ensures h == PutHead(was, Secs(), n)
    {
      h := SetWord(was, 0, n);
      var i := 0;
      while i < n
        invariant 0 <= i <= n
        invariant h == PutHead(was, Secs(), i)
      {
        h := SetWord(h, i + 1, sector[i]);
        i := i + 1;
      }
    }

    /** write_head (log.c): one sector write of the header block. */
    method WriteHead()
      requires Quiet(cache) && Shaped() && !cache.Pinned(area.start) && Dirties(cache) < NBUF
      modifies cache
      ensures Quiet(cache) && Shaped()
      ensures cache.disk == old(cache.disk)[area.start := PutHead(old(cache.disk)[area.start], Secs(), n)]
      ensures cache.trace == old(cache.trace) + [cache.disk]
      ensures forall s :: 0 <= s < |cache.disk| && s != area.start ==> cache.latest[s] == old(cache.latest)[s]
      ensures Dirties(cache) == old(Dirties(cache))
      ensures forall t :: cache.Pinned(t) <==> old(cache.Pinned(t))
    {
      SomeRecyclable(cache.buf);
      CleanIsDisk(cache, area.start);
      var b := Lock(cache, area.start);
      assert forall i :: 0 <= i < n ==> sector[i] == Secs()[i];
      var h := FillHead(cache.buf[b].data);
      ghost var d, secs := cache.disk, Secs();
      Overwrite(cache, b, h);
      SameShape(area, d, cache.disk, secs);
    }

    /** read_head (log.c). */
    method ReadHead()
      requires Quiet(cache) && |sector| == LOGSIZE && Dirties(cache) == 0 && Recoverable(area, cache.disk)
      modifies this`n, this`sector, cache`buf, cache`disk, cache`trace, cache`at, cache`next, cache`prev, cache`order
      ensures Quiet(cache) && Shaped() && Dirties(cache) == 0
      ensures cache.disk == old(cache.disk) && cache.trace == old(cache.trace)
      ensures Secs() == HeadSectors(cache.disk[area.start])
      ensures forall t :: cache.Pinned(t) <==> old(cache.Pinned(t))
    {
      SomeRecyclable(cache.buf);
      NothingPinned(cache);
      CleanIsDisk(cache, area.start);
      var b := Lock(cache, area.start);
      var h := cache.buf[b].data;
      CopyHead(h);
      var ok := cache.Brelse(b);
      assert DirtyBufs(cache.buf) == DirtyBufs(old(cache.buf));
    }

    /** The loop of read_head. */
    method CopyHead(h: Block)
      requires |sector| == LOGSIZE && HeadCount(h) <= LOGSIZE
      modifies this`n, this`sector
      ensures |sector| == LOGSIZE && n == HeadCount(h) && Secs() == HeadSectors(h)
    {
      n := HeadCount(h);
      var i := 0;
      while i < n
        invariant 0 <= i <= n == HeadCount(h) && |sector| == LOGSIZE
        invariant forall k :: 0 <= k < i ==> sector[k] == HeadSectors(h)[k]
      {
        sector := sector[i := GetWord(h, i + 1)];
        i := i + 1;
      }
      assert Secs() == HeadSectors(h);
    }

    /** write_log after `tail` blocks, begun on disk d with trace t and contents v. */
    ghost predicate Writing(tail: nat, d: Disk, data: seq<Block>, t: seq<Disk>, v: Disk)
      reads this, cache
    {
      && Quiet(cache) && Valid() && Dirties(cache) < NBUF
      && tail <= n == |data| && Filling(area, d, data, tail, t, cache.disk, cache.trace)
      && SameHome(area, cache.latest, v)
      && (forall i :: 0 <= i < n ==> sector[i] < |v| && data[i] == v[sector[i]])
    }

    method WriteOne(tail: nat, ghost d: Disk, ghost data: seq<Block>, ghost t: seq<Disk>, ghost v: Disk)
      requires Writing(tail, d, data, t, v) && tail < n
      modifies cache
      ensures Writing(tail + 1, d, data, t, v)
    {
      assert sector[tail] == Secs()[tail];
      assert !cache.Pinned(area.start + 1 + tail);
      ghost var disk, trace := FilledNext(area, d, data, tail, t, cache.disk, cache.trace);
      LogStore(area, cache.latest, v, 1 + tail, data[tail]);
      CopyToLog(cache, sector[tail], area.start + 1 + tail);
      assert cache.disk == disk && cache.trace == trace;
    }

    /** write_log (log.c). */
    method WriteLog(ghost d: Disk, ghost data: seq<Block>, ghost t: seq<Disk>, ghost v: Disk)
      requires Writing(0, d, data, t, v)
      modifies cache
      ensures Writing(n, d, data, t, v)
    {
      var tail := 0;
      while tail < n
        invariant tail <= n && Writing(tail, d, data, t, v)
      {
        WriteOne(tail, d, data, t, v);
        tail := tail + 1;
      }
    }

    /** Either nothing is pinned (boot), or exactly the sectors from tail on are (commit). */
    ghost predicate Pending(tail: nat)
      requires n <= |sector| && tail <= n
      reads this, cache
    {
      || (Dirties(cache) == 0 && forall t :: !cache.Pinned(t))
      || (Distinct(Secs()) && forall t :: cache.Pinned(t) <==> t in Secs()[tail..])
    }

    /** The cache can copy the blocks from tail on to their home sectors. */
    ghost predicate Ready(tail: nat)
      reads this, cache
    {
      Quiet(cache) && Shaped() && Dirties(cache) < NBUF && tail <= n && Pending(tail)
    }

    /** One turn of install_trans: one block from the log to its home sector, pinned or not. */
    method InstallOne(tail: nat, ghost secs: seq<nat>)
      requires Ready(tail) && tail < n && secs == Secs()
      modifies cache
      ensures Ready(tail + 1)
      ensures CopiedBlock(area, secs[tail], tail, old(cache.disk), cache.disk)
      ensures cache.trace == old(cache.trace) + [cache.disk]
    {
      ghost var was := cache.disk;
      SuffixFacts(area, secs, tail);
      assert secs[tail] == sector[tail];
      CopyHome(cache, area.start + 1 + tail, sector[tail]);
      SameShape(area, was, cache.disk, secs);
    }

    /** install_trans (log.c), on a disk whose header is the in-memory one. */
    method InstallTrans()
      requires Ready(0) && Recoverable(area, cache.disk) && HeadSectors(cache.disk[area.start]) == Secs()
      modifies cache
      ensures Quiet(cache) && Shaped() && (forall t :: !cache.Pinned(t)) && cache.disk == Installed(area, old(cache.disk), n)
      ensures cache.trace == old(cache.trace) + InstalledTrace(area, old(cache.disk), n)
    {
      ghost var hist := InstallLoop();
      CopiesInstall(area, Secs(), hist, n);
      assert Secs()[n..] == [];
    }

    method InstallLoop() returns (ghost hist: seq<Disk>)
      requires Ready(0)
      modifies cache
      ensures Ready(n) && Copies(area, Secs(), hist) && |hist| == n + 1
      ensures hist[0] == old(cache.disk) && cache.disk == hist[n] && cache.trace == old(cache.trace) + hist[1..n + 1]
    {
      ghost var secs := Secs();
      hist := [cache.disk];
      var tail := 0;
      while tail < n
        invariant tail <= n && Ready(tail) && Secs() == secs
        invariant Copies(area, secs, hist) && |hist| == tail + 1 && hist[0] == old(cache.disk) && hist[tail] == cache.disk
        invariant cache.trace == old(cache.trace) + hist[1..]
      {
        InstallOne(tail, secs);
        CopiesNext(area, secs, hist, cache.disk);
        hist := hist + [cache.disk];
        tail := tail + 1;
      }
      assert hist[1..n + 1] == hist[1..];
    }

    /** log.lh.n = 0; write_head(). */
    method ClearHead()
      requires Quiet(cache) && |sector| == LOGSIZE && Fits(area, cache.disk) && forall t :: !cache.Pinned(t)
      modifies this`n, cache
      ensures Valid() && Quiet(cache) && n == 0
      ensures cache.disk == cache.latest == old(cache.disk)[area.start := SetWord(old(cache.disk)[area.start], 0, 0)]
      ensures cache.trace == old(cache.trace) + [cache.disk]
    {
      n := 0;
      NoDirtyBufs(cache);
      WriteHead();
      forall s | 0 <= s < |cache.disk| ensures cache.latest[s] == cache.disk[s] { CleanIsDisk(cache, s); }
    }

    /** recover_from_log (log.c): the writes are exactly the recovery trace. */
    method RecoverFromLog()
      requires Quiet(cache) && |sector| == LOGSIZE && (forall t :: !cache.Pinned(t)) && Recoverable(area, cache.disk)
      modifies this`n, this`sector, cache
      ensures Valid() && Quiet(cache) && n == 0
      ensures cache.trace == old(cache.trace) + RecoveryTrace(area, old(cache.disk))
      ensures cache.disk == cache.latest == Recovered(area, old(cache.disk))
    {
      Replay();
      ClearHead();
    }

    /** read_head, install_trans. */
    method Replay()
      requires Quiet(cache) && |sector| == LOGSIZE && (forall t :: !cache.Pinned(t)) && Recoverable(area, cache.disk)
      modifies this`n, this`sector, cache
      ensures Quiet(cache) && |sector| == LOGSIZE && Fits(area, cache.disk) && forall t :: !cache.Pinned(t)
      ensures var d := old(cache.disk);
              && cache.disk == Installed(area, d, HeadCount(d[area.start]))
              && cache.trace == old(cache.trace) + InstalledTrace(area, d, HeadCount(d[area.start]))
    {
      NoDirtyBufs(cache);
      ReadHead();
      InstallTrans();
    }

    /** Putting the pinned blocks at their sectors gives the latest contents everywhere. */
    lemma PutIsLatest()
      requires Valid() && Quiet(cache)
      ensures SameHome(area, Put(cache.disk, Secs(), Gather(), n), cache.latest)
    {
      forall s | 0 <= s < |cache.disk| && s !in Secs() ensures cache.latest[s] == cache.disk[s] {
        CleanIsDisk(cache, s);
      }
      PutGathered(cache.disk, cache.latest, Secs(), Gather());
    }

    /** write_log, write_head, install_trans: everything of commit but erasing the header. */
    method CommitToDisk(ghost d: Disk, ghost data: seq<Block>)
      requires Valid() && Quiet(cache) && 0 < n < NBUF && Dirties(cache) < NBUF
      requires d == cache.disk && data == Gather() && Recoverable(area, Committed(area, d, Secs(), data))
      requires HeadSectors(Committed(area, d, Secs(), data)[area.start]) == Secs()
      modifies cache
      ensures Quiet(cache) && |sector| == LOGSIZE && Fits(area, cache.disk) && forall t :: !cache.Pinned(t)
      ensures var c := Committed(area, d, Secs(), data);
              && cache.disk == Installed(area, c, n)
              && cache.trace == old(cache.trace) + FilledTrace(area, d, data, n) + [c] + InstalledTrace(area, c, n)
    {
      assert forall i :: 0 <= i < n ==> sector[i] == Secs()[i];
      WriteLog(d, data, cache.trace, cache.latest);
      HeadAndInstall(d, data);
    }

    method HeadAndInstall(ghost d: Disk, ghost data: seq<Block>)
      requires Valid() && Quiet(cache) && Dirties(cache) < NBUF && |data| == n
      requires Fits(area, d) && |d| == |cache.disk| && cache.disk == Filled(area, d, data, n)
      requires Recoverable(area, Committed(area, d, Secs(), data)) && HeadSectors(Committed(area, d, Secs(), data)[area.start]) == Secs()
      modifies cache
      ensures Quiet(cache) && |sector| == LOGSIZE && Fits(area, cache.disk) && forall t :: !cache.Pinned(t)
      ensures var c := Committed(area, d, Secs(), data);
              && cache.disk == Installed(area, c, n)
              && cache.trace == old(cache.trace) + [c] + InstalledTrace(area, c, n)
    {
      assert Secs()[0..] == Secs();
      WriteHead();
      assert cache.disk == Committed(area, d, Secs(), data);
      InstallTrans();
    }

    /** commit (log.c) when no operation is open.  It completes exactly when some buffer is
        not pinned, and then its sector writes are exactly the commit trace. */
    method Commit() returns (ok: bool)
      requires Valid() && Quiet(cache)
      modifies this`n, cache
      ensures ok <==> old(n) < NBUF
      ensures ok ==> Valid() && Quiet(cache) && n == 0
      ensures ok && old(n) == 0 ==> cache.trace == old(cache.trace) && cache.disk == old(cache.disk) && cache.latest == old(cache.latest)
      ensures ok && old(n) > 0 ==> cache.trace == old(cache.trace) + CommitTrace(area, old(cache.disk), old(Secs()), old(Gather()))
      ensures ok && old(n) > 0 ==> cache.disk == cache.latest && SameHome(area, cache.latest, old(cache.latest))
      ensures ok ==> forall i :: |old(cache.trace)| <= i < |cache.trace| ==> Whole(area, cache.trace[i], old(cache.disk), old(cache.latest))
    {
      if n > 0 {
        DirtyCount(cache, Secs());
        if n >= NBUF {
          // every buffer is pinned, so the first bread of write_log finds none to recycle
          SomeRecyclable(cache.buf);
          OnlyPinnedCached(cache, area.start + 1);
          var r := cache.Bread(DISK, area.start + 1);
          return !r.Panicked?;
        }
        PutIsLatest();
        ghost var d, secs, data, latest, t := cache.disk, Secs(), Gather(), cache.latest, cache.trace;
        CommitSome();
        ImagesWhole(area, d, secs, data, latest, t, cache.trace);
      }
      return true;
    }

    /** commit with something to write and a buffer to spare. */
    method CommitSome()
      requires Valid() && Quiet(cache) && 0 < n < NBUF && Dirties(cache) < NBUF
      modifies this`n, cache
      ensures Valid() && Quiet(cache) && n == 0
      ensures cache.trace == old(cache.trace) + CommitTrace(area, old(cache.disk), old(Secs()), old(Gather()))
      ensures cache.disk == cache.latest && SameHome(area, cache.latest, old(cache.latest))
    {
      ghost var d, secs, data := cache.disk, Secs(), Gather();
      CommittedHead(area, d, secs, data);
      PutIsLatest();
      CommittedHome(area, d, secs, data);
      ghost var c, t := Committed(area, d, secs, data), cache.trace;
      CommitToDisk(d, data);
      ClearHead();
      Regroup(t, FilledTrace(area, d, data, |secs|), [c], InstalledTrace(area, c, |secs|), [Recovered(area, c)]);
    }
  }
}
