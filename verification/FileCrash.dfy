/** filewrite's chunks under a crash: each chunk is a transaction of its own (file.c). */
module FileCrash {
  import opened Blocks
  import opened Bitmap
  import opened FileIndex
  import opened Volumes
  import opened Allocation
  import opened FileSystem
  import opened LogSpec
  import opened Log
  import opened CrashSafety
  import opened FileOps

  /** The bytes of the first t chunks of a write of n bytes. */
  function Upto(t: nat, n: nat): (k: nat)
  {
    if t * CHUNK < n then t * CHUNK else n
  }

  lemma UptoNext(t: nat, n: nat)
    requires t * CHUNK < n
    ensures Upto(t, n) < Upto(t + 1, n) <= Upto(t, n) + CHUNK && Upto(t + 1, n) <= n
  {
  }

  /** A disk with a clean log and a consistent volume on it. */
  ghost predicate Sound(a: Area, sb: Super, d: Disk, n: nat, owner: map<nat, Owner>, used: set<nat>)
  {
    Clean(a, d) && Apart(a, sb, d, n) && Consistent(sb, FilesOf(d, n), owner, used)
  }

  lemma {:induction false} HoldingSame(f: Fs, g: Fs, h: Fs, i: nat, off: nat, src: seq<Byte>, k: nat)
    requires Holding(f, g, i, off, src, k) && SameFiles(g, h)
    ensures Holding(f, h, i, off, src, k)
  {
  }

  lemma {:induction false} HoldingAcross(f: Fs, g: Fs, e: Fs, h: Fs, i: nat, off: nat, src: seq<Byte>, k: nat, m: nat)
    requires k < m <= |src|
    ensures Holding(f, g, i, off, src, k) && Wrote(g, e, i, off + k, src[k..m]) && SameFiles(e, h) ==>
              Holding(f, h, i, off, src, m)
  {
    if Holding(f, g, i, off, src, k) && Wrote(g, e, i, off + k, src[k..m]) && SameFiles(e, h) {
      HoldingNext(f, g, e, i, off, src, k, m);
      HoldingSame(f, e, h, i, off, src, m);
    }
  }

  // ---- the run of transactions ------------------------------------------------------------------

  /** The disk before a transaction, and what is in use on it. */
  datatype Stage = Stage(disk: Disk, owner: map<nat, Owner>, used: set<nat>)

  ghost predicate SoundAt(a: Area, sb: Super, x: Stage, n: nat)
  {
    Sound(a, sb, x.disk, n, x.owner, x.used)
  }

  /** The disk a transaction is to make, and the sectors it logs. */
  datatype Out = Out(disk: Disk, secs: seq<nat>)

  /** Chunk t: writei and iupdate make e of the disk of x, the sectors logged fit the log, and the
      commit leaves the disk of y: the sectors of e, and an empty log. */
  ghost predicate ChunkStep(a: Area, sb: Super, n: nat, i: nat, off: nat, src: seq<Byte>, t: nat, x: Stage, e: Out, y: Stage)
  {
    && Carries(a, x.disk, e.disk, e.secs) && IBlock(n) < |x.disk| && Upto(t, |src|) < Upto(t + 1, |src|) <= |src|
    && Consistent(sb, FilesOf(e.disk, n), y.owner, y.used)
    && Wrote(FilesOf(x.disk, n), FilesOf(e.disk, n), i, off + Upto(t, |src|), src[Upto(t, |src|)..Upto(t + 1, |src|)])
    && Clean(a, y.disk) && SameHome(a, y.disk, e.disk)
  }

  ghost predicate ChunkRun(a: Area, sb: Super, n: nat, i: nat, off: nat, src: seq<Byte>, stages: seq<Stage>, outs: seq<Out>)
  {
    && |stages| == |outs| + 1 && SoundAt(a, sb, stages[0], n) && i < n
    && forall t :: 0 <= t < |outs| ==> ChunkStep(a, sb, n, i, off, src, t, stages[t], outs[t], stages[t + 1])
  }

  /** The image a commit ends with has the new sectors and an empty log. */
  lemma {:induction false} CommitEnds(a: Area, d: Disk, e: Disk, secs: seq<nat>)
    requires Clean(a, d) && Carries(a, d, e, secs)
    ensures var r := CommitImage(a, d, secs, At(e, secs), 2 * |secs| + 2); Clean(a, r) && SameHome(a, r, e)
  {
    var data := At(e, secs);
    CommittedHead(a, d, secs, data);
    CommittedHome(a, d, secs, data);
    PutGathered(d, e, secs, data);
  }

  /** After t chunks. */
  lemma {:induction false} ChunksHold(a: Area, sb: Super, n: nat, i: nat, off: nat, src: seq<Byte>, stages: seq<Stage>, outs: seq<Out>, t: nat)
    requires ChunkRun(a, sb, n, i, off, src, stages, outs) && t <= |outs|
    ensures SoundAt(a, sb, stages[0], n) && SoundAt(a, sb, stages[t], n)
    ensures Holding(FilesOf(stages[0].disk, n), FilesOf(stages[t].disk, n), i, off, src, Upto(t, |src|))
    decreases t
  {
    if t > 0 {
      ChunksHold(a, sb, n, i, off, src, stages, outs, t - 1);
      ChunkHolds(a, sb, n, i, off, src, FilesOf(stages[0].disk, n), t - 1, stages[t - 1], outs[t - 1], stages[t]);
    }
  }

  lemma {:induction false} SoundNext(a: Area, sb: Super, n: nat, i: nat, off: nat, src: seq<Byte>, t: nat, x: Stage, e: Out, y: Stage)
    requires SoundAt(a, sb, x, n) && ChunkStep(a, sb, n, i, off, src, t, x, e, y)
    ensures SoundAt(a, sb, y, n) && SameFiles(FilesOf(e.disk, n), FilesOf(y.disk, n))
  {
    SameHomeVolume(a, sb, e.disk, y.disk, n, y.owner, y.used);
  }

  lemma {:induction false} ChunkHolds(a: Area, sb: Super, n: nat, i: nat, off: nat, src: seq<Byte>, f: Fs, t: nat, x: Stage, e: Out, y: Stage)
    requires SoundAt(a, sb, x, n) && ChunkStep(a, sb, n, i, off, src, t, x, e, y)
    ensures SoundAt(a, sb, y, n)
    ensures Holding(f, FilesOf(x.disk, n), i, off, src, Upto(t, |src|)) ==> Holding(f, FilesOf(y.disk, n), i, off, src, Upto(t + 1, |src|))
  {
    SoundNext(a, sb, n, i, off, src, t, x, e, y);
    HoldingAcross(f, FilesOf(x.disk, n), FilesOf(e.disk, n), FilesOf(y.disk, n), i, off, src, Upto(t, |src|), Upto(t + 1, |src|));
  }

  /** A crash during chunk t, after any number of its sector writes: recovery leaves a consistent
      volume on which the file holds the old bytes with a whole number of chunks written, t of them
      before the header write and t + 1 from it on, and no other file is touched. */
  lemma {:induction false} WholeChunks(a: Area, sb: Super, n: nat, i: nat, off: nat, src: seq<Byte>, stages: seq<Stage>, outs: seq<Out>, t: nat, writes: nat)
    requires ChunkRun(a, sb, n, i, off, src, stages, outs) && t < |outs| && writes <= 2 * |outs[t].secs| + 2
    ensures SoundAt(a, sb, stages[0], n) && SoundAt(a, sb, stages[t], n) && Carries(a, stages[t].disk, outs[t].disk, outs[t].secs)
    ensures var secs := outs[t].secs;
            var c := CommitImage(a, stages[t].disk, secs, At(outs[t].disk, secs), writes);
            var s := if writes <= |secs| then stages[t] else stages[t + 1];
            Recoverable(a, c) && IBlock(n) < |Recovered(a, c)| &&
            Consistent(sb, FilesOf(Recovered(a, c), n), s.owner, s.used) &&
            Holding(FilesOf(stages[0].disk, n), FilesOf(Recovered(a, c), n), i, off, src, Upto(if writes <= |secs| then t else t + 1, |src|))
  {
    ChunksHold(a, sb, n, i, off, src, stages, outs, t);
    CrashInChunk(a, sb, n, i, off, src, FilesOf(stages[0].disk, n), t, stages[t], outs[t], stages[t + 1], writes);
  }

  lemma {:induction false} CrashInChunk(a: Area, sb: Super, n: nat, i: nat, off: nat, src: seq<Byte>, f: Fs, t: nat, x: Stage, e: Out, y: Stage, writes: nat)
    requires SoundAt(a, sb, x, n) && ChunkStep(a, sb, n, i, off, src, t, x, e, y) && Holding(f, FilesOf(x.disk, n), i, off, src, Upto(t, |src|))
    requires writes <= 2 * |e.secs| + 2
    ensures var c := CommitImage(a, x.disk, e.secs, At(e.disk, e.secs), writes);
            var s := if writes <= |e.secs| then x else y;
            Recoverable(a, c) && IBlock(n) < |Recovered(a, c)| &&
            Consistent(sb, FilesOf(Recovered(a, c), n), s.owner, s.used) &&
            Holding(f, FilesOf(Recovered(a, c), n), i, off, src, Upto(if writes <= |e.secs| then t else t + 1, |src|))
  {
    VolumeIsAtomic(a, sb, x.disk, e.disk, e.secs, n, x.owner, x.used, y.owner, y.used, writes);
    var r := Recovered(a, CommitImage(a, x.disk, e.secs, At(e.disk, e.secs), writes));
    ChunkWrites(a, sb, n, i, off, src, f, t, x, e, y);
    if writes <= |e.secs| {
      HoldingSame(f, FilesOf(x.disk, n), FilesOf(r, n), i, off, src, Upto(t, |src|));
    } else {
      HoldingSame(f, FilesOf(e.disk, n), FilesOf(r, n), i, off, src, Upto(t + 1, |src|));
    }
  }

  lemma {:induction false} ChunkWrites(a: Area, sb: Super, n: nat, i: nat, off: nat, src: seq<Byte>, f: Fs, t: nat, x: Stage, e: Out, y: Stage)
    requires SoundAt(a, sb, x, n) && ChunkStep(a, sb, n, i, off, src, t, x, e, y) && Holding(f, FilesOf(x.disk, n), i, off, src, Upto(t, |src|))
    ensures Holding(f, FilesOf(e.disk, n), i, off, src, Upto(t + 1, |src|))
  {
    HoldingNext(f, FilesOf(x.disk, n), FilesOf(e.disk, n), i, off, src, Upto(t, |src|), Upto(t + 1, |src|));
  }

  // ---- filewrite ----------------------------------------------------------------------------------

  /** How chunk t ends on disk d, on which `used` is in use. */
  ghost function ChunkFate(a: Area, sb: Super, d: Disk, n: nat, used: set<nat>, i: nat, off: nat, src: seq<Byte>, t: nat): (r: Fate)
    requires i < n && IBlock(n) < |d| && Upto(t, |src|) < |src|
  {
    UptoNext(t, |src|);
    FateOf(a, sb, FilesOf(d, n), used, i, off + Upto(t, |src|), Upto(t + 1, |src|) - Upto(t, |src|))
  }

  /** The image the commit ends with. */
  function AfterCommit(a: Area, d: Disk, e: Disk, secs: seq<nat>): (r: Disk)
    requires Clean(a, d) && Carries(a, d, e, secs)
    ensures Clean(a, r) && SameHome(a, r, e)
  {
    CommitEnds(a, d, e, secs);
    CommitImage(a, d, secs, At(e, secs), 2 * |secs| + 2)
  }

  lemma {:induction false} FateSame(a: Area, sb: Super, d: Disk, n: nat, used: set<nat>, i: nat, off: nat, src: seq<Byte>, t: nat, k: nat, len: nat)
    requires Upto(t, |src|) == k < |src| && k + len == Upto(t + 1, |src|) && i < n && IBlock(n) < |d|
    ensures ChunkFate(a, sb, d, n, used, i, off, src, t) == FateOf(a, sb, FilesOf(d, n), used, i, off + k, len)
  {
  }

  lemma {:induction false} ChunkMade(a: Area, sb: Super, d: Disk, n: nat, i: nat, off: nat, src: seq<Byte>, t: nat, x: Stage, disk: Disk, secs: seq<nat>, y: Stage, k: nat, m: nat, piece: seq<Byte>)
    requires Upto(t, |src|) == k < m == Upto(t + 1, |src|) <= |src| && piece == src[k..m] && x.disk == d && IBlock(n) < |d|
    ensures Carries(a, d, disk, secs) && Consistent(sb, FilesOf(disk, n), y.owner, y.used)
            && Wrote(FilesOf(d, n), FilesOf(disk, n), i, off + k, piece) && Clean(a, y.disk) && SameHome(a, y.disk, disk)
            ==> ChunkStep(a, sb, n, i, off, src, t, x, Out(disk, secs), y)
  {
  }

  /** One turn of filewrite's loop: chunk t, from the disk d of stage x. */
  method NextTransaction(a: Area, sb: Super, d: Disk, n: nat, i: nat, off: nat, src: seq<Byte>, t: nat, ghost x: Stage)
      returns (fate: Fate, e: Out, r: Disk, ghost y: Stage)
    requires SoundAt(a, sb, x, n) && x.disk == d && i < n && Upto(t, |src|) < |src| && off + Upto(t, |src|) < UINT
    ensures fate == ChunkFate(a, sb, d, n, x.used, i, off, src, t)
    ensures y.disk == r && (fate != Finished || ChunkStep(a, sb, n, i, off, src, t, x, e, y))
    ensures fate != Finished ==> r == d
  {
    UptoNext(t, |src|);
    var k, m := Upto(t, |src|), Upto(t + 1, |src|);
    var disk, secs, calls;
    ghost var owner2, used2;
    var piece := src[k..m];
    fate, disk, secs, calls, owner2, used2 := WriteUnderCrash(a, sb, d, n, i, off + k, piece, x.owner, x.used);
    FateSame(a, sb, d, n, x.used, i, off, src, t, k, |piece|);
    e := Out(disk, secs);
    if fate == Finished {
      r := AfterCommit(a, d, disk, secs);
      y := Stage(r, owner2, used2);
      ChunkMade(a, sb, d, n, i, off, src, t, x, disk, secs, y, k, m, piece);
    } else {
      r, y := d, x;
    }
  }

  lemma {:induction false} EndOfFile(f: Fs, g: Fs, i: nat, off: nat, src: seq<Byte>, k: nat)
    requires Holding(f, g, i, off, src, k) && k > 0
    ensures off + k <= MAXBLOCKS * BSIZE < UINT
  {
    assert |Written(Contents(f, i), off, src[..k])| >= off + k;
  }

  /** The next chunk can begin. */
  lemma {:induction false} RunReady(a: Area, sb: Super, n: nat, i: nat, off: Word, src: seq<Byte>, stages: seq<Stage>, outs: seq<Out>)
    requires ChunkRun(a, sb, n, i, off, src, stages, outs)
    ensures SoundAt(a, sb, stages[|outs|], n) && off + Upto(|outs|, |src|) < UINT
  {
    var t := |outs|;
    ChunksHold(a, sb, n, i, off, src, stages, outs, t);
    if Upto(t, |src|) > 0 {
      EndOfFile(FilesOf(stages[0].disk, n), FilesOf(stages[t].disk, n), i, off, src, Upto(t, |src|));
    }
  }

  lemma {:induction false} RunNext(a: Area, sb: Super, n: nat, i: nat, off: nat, src: seq<Byte>, stages: seq<Stage>, outs: seq<Out>, e: Out, y: Stage)
    requires ChunkRun(a, sb, n, i, off, src, stages, outs) && ChunkStep(a, sb, n, i, off, src, |outs|, stages[|outs|], e, y)
    ensures ChunkRun(a, sb, n, i, off, src, stages + [y], outs + [e])
  {
  }

  /** filewrite on the volume of disk d: a run of transactions, one a chunk, until all is written or
      the state a chunk finds makes it fail. */
  method FileWriteRun(a: Area, sb: Super, d: Disk, n: nat, i: nat, off: Word, src: seq<Byte>, ghost owner: map<nat, Owner>, ghost used: set<nat>)
      returns (fate: Fate, t: nat, r: Disk, ghost stages: seq<Stage>, ghost outs: seq<Out>)
    requires Sound(a, sb, d, n, owner, used) && i < n
    ensures ChunkRun(a, sb, n, i, off, src, stages, outs) && stages[0] == Stage(d, owner, used) && |outs| == t && stages[t].disk == r
    ensures fate == Finished <==> Upto(t, |src|) == |src|
    ensures fate != Finished ==> IBlock(n) < |r| && fate == ChunkFate(a, sb, r, n, stages[t].used, i, off, src, t)
  {
    t, r := 0, d;
    stages, outs := [Stage(d, owner, used)], [];
    while Upto(t, |src|) < |src|
      invariant ChunkRun(a, sb, n, i, off, src, stages, outs) && stages[0] == Stage(d, owner, used) && |outs| == t && stages[t].disk == r
      decreases |src| - Upto(t, |src|)
    {
      RunReady(a, sb, n, i, off, src, stages, outs);
      UptoNext(t, |src|);
      var e;
      ghost var y;
      fate, e, r, y := NextTransaction(a, sb, r, n, i, off, src, t, stages[t]);
      if fate != Finished {
        return;
      }
      RunNext(a, sb, n, i, off, src, stages, outs, e, y);
      stages, outs := stages + [y], outs + [e];
      t := t + 1;
    }
    RunReady(a, sb, n, i, off, src, stages, outs);
    fate := Finished;
  }

  /** With the log as shipped and up to eleven bitmap sectors no chunk finds the log full. */
  lemma {:induction false} ChunkFitsLog(a: Area, sb: Super, d: Disk, n: nat, owner: map<nat, Owner>, used: set<nat>, i: nat, off: nat, src: seq<Byte>, t: nat)
    requires Sound(a, sb, d, n, owner, used) && i < n && Upto(t, |src|) < |src| && a.size >= LOGSIZE && BitmapSectors(sb) <= 11
    ensures ChunkFate(a, sb, d, n, used, i, off, src, t) != LogFull
  {
    UptoNext(t, |src|);
    var at, len := off + Upto(t, |src|), Upto(t + 1, |src|) - Upto(t, |src|);
    ChunkBlocks(at, len);
    LogSuffices(a, sb, FilesOf(d, n), owner, used, i, at, len);
  }

  lemma ChunkBlocks(at: nat, len: nat)
    requires len <= CHUNK
    ensures EndBlock(at, len) - at / BSIZE <= 14
  {
  }
}
