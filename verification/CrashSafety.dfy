/** The file system over the log: on-disk inodes, and writei's changes as one transaction. */
module CrashSafety {
  import opened Sequences
  import opened Blocks
  import opened Bitmap
  import opened FileIndex
  import opened Volumes
  import opened Allocation
  import opened FileSystem
  import opened LogSpec
  import opened Log

  // ---- struct dinode: 16 words, the size in word 2 and the addresses from word 3 on ---------

  const IWORDS: nat := 16

  /** Inode i as it is on the disk. */
  function InodeAt(d: Disk, i: nat): (ip: Inode)
    requires IBlock(i) < |d|
  {
    var b, w := d[IBlock(i)], i % IPB * IWORDS;
    Inode(b.words[w + 2], seq(NDIRECT + 1, j requires 0 <= j <= NDIRECT => b.words[w + 3 + j]))
  }

  /** The files of a disk with n inodes. */
  function FilesOf(d: Disk, n: nat): (f: Fs)
    requires IBlock(n) < |d|
    ensures f.blocks == d && |f.inodes| == n && forall i :: 0 <= i < n ==> f.inodes[i] == InodeAt(d, i)
  {
    Fs(d, seq(n, i requires 0 <= i < n => InodeAt(d, i)))
  }

  /** Word w of inode sector q. */
  function InodeWord(was: Word, inodes: seq<Inode>, q: nat, w: nat): (x: Word)
  {
    var i, k := q * IPB + w / IWORDS, w % IWORDS;
    if i < |inodes| && k == 2 then inodes[i].size
    else if i < |inodes| && k >= 3 then inodes[i].addrs[k - 3]
    else was
  }

  /** iupdate of the inodes: the sectors from 2 on take their sizes and addresses. */
  function WithInodes(d: Disk, inodes: seq<Inode>): (e: Disk)
    ensures |e| == |d| && forall s :: 0 <= s < |d| && !(2 <= s <= IBlock(|inodes|)) ==> e[s] == d[s]
  {
    seq(|d|, s requires 0 <= s < |d| =>
      if 2 <= s <= IBlock(|inodes|) then Block(seq(WORDS, w requires 0 <= w < WORDS => InodeWord(d[s].words[w], inodes, s - 2, w)))
      else d[s])
  }

  lemma {:induction false} InodeIndex(i: nat, k: nat)
    requires k < IWORDS
    ensures var w := i % IPB * IWORDS + k; w < WORDS && w / IWORDS == i % IPB && w % IWORDS == k && i / IPB * IPB + i % IPB == i
  {
  }

  /** Each inode is read back as it was written. */
  lemma {:induction false} InodeRoundTrip(d: Disk, inodes: seq<Inode>, i: nat)
    requires i < |inodes| && IBlock(|inodes|) < |d|
    ensures InodeAt(WithInodes(d, inodes), i) == inodes[i]
  {
    var e, r := WithInodes(d, inodes), InodeAt(WithInodes(d, inodes), i);
    assert i / IPB <= |inodes| / IPB;
    InodeIndex(i, 2);
    forall j | 0 <= j <= NDIRECT ensures r.addrs[j] == inodes[i].addrs[j] { InodeIndex(i, 3 + j); }
    assert r.addrs == inodes[i].addrs;
  }

  /** struct dinode, eight to a sector: the size is word 2 and the addresses are words 3 to 15; the
      other words stay. */
  lemma {:induction false} InodeLayout(d: Disk, inodes: seq<Inode>, s: nat, w: nat)
    requires |inodes| / 8 + 2 < |d| && 2 <= s <= |inodes| / 8 + 2 && w < 128
    ensures var i, was, now := 8 * (s - 2) + w / 16, d[s].words[w], WithInodes(d, inodes)[s].words[w];
            && (i < |inodes| && w % 16 == 2 ==> now == inodes[i].size)
            && (i < |inodes| && 3 <= w % 16 ==> w % 16 - 3 <= NDIRECT && now == inodes[i].addrs[w % 16 - 3])
            && (i >= |inodes| || w % 16 < 2 ==> now == was)
  {
  }

  // ---- what a volume depends on ----------------------------------------------------------------

  /** The sectors of the bitmap and of the data. */
  ghost predicate SameVolume(sb: Super, d: Disk, e: Disk)
  {
    |d| == |e| && forall s :: BBlock(sb, 0) <= s < sb.hi && s < |d| ==> d[s] == e[s]
  }

  lemma {:induction false} BitmapFrame(sb: Super, d: Disk, e: Disk, used: set<nat>)
    requires BitsAre(sb, d, used) && SameVolume(sb, d, e)
    ensures BitsAre(sb, e, used)
  {
    forall b {:trigger Marked(sb, e, b)} | 0 <= b < sb.size ensures Marked(sb, e, b) == Marked(sb, d, b) {
      BBlockBound(sb, b);
    }
  }

  /** The same files in the same blocks. */
  ghost predicate SameFiles(f: Fs, g: Fs)
  {
    && |g.inodes| == |f.inodes|
    && (forall i :: 0 <= i < |f.inodes| ==> f.inodes[i].size <= MAXBLOCKS * BSIZE && g.inodes[i].size <= MAXBLOCKS * BSIZE)
    && forall i :: 0 <= i < |f.inodes| ==> Contents(g, i) == Contents(f, i)
  }

  lemma {:induction false} VolumeFrame(sb: Super, f: Fs, g: Fs, owner: map<nat, Owner>, used: set<nat>)
    requires Consistent(sb, f, owner, used) && g.inodes == f.inodes && SameVolume(sb, f.blocks, g.blocks)
    ensures Consistent(sb, g, owner, used) && SameFiles(f, g)
  {
    BitmapFrame(sb, f.blocks, g.blocks, used);
    OwnedSame(sb, f, g, owner, used);
    UnownedTree(f, g, owner);
    forall i | 0 <= i < |f.inodes| ensures Contents(g, i) == Contents(f, i) { }
  }

  lemma {:induction false} OwnedSame(sb: Super, f: Fs, g: Fs, owner: map<nat, Owner>, used: set<nat>)
    requires Consistent(sb, f, owner, used) && SameVolume(sb, f.blocks, g.blocks)
    ensures forall b :: b in owner ==> b < |f.blocks| && g.blocks[b] == f.blocks[b]
  {
    BBlockBound(sb, 0);
  }

  /** The log lies beyond the data, and the inodes below the bitmap. */
  ghost predicate Apart(a: Area, sb: Super, d: Disk, n: nat)
  {
    sb.hi <= a.start && n <= sb.ninodes && Layout(sb, d) && IBlock(n) < |d|
  }

  /** Two disks with the same home sectors hold the same volume. */
  lemma {:induction false} SameHomeVolume(a: Area, sb: Super, d: Disk, e: Disk, n: nat, owner: map<nat, Owner>, used: set<nat>)
    requires Apart(a, sb, d, n) && SameHome(a, e, d) && Consistent(sb, FilesOf(d, n), owner, used)
    ensures IBlock(n) < |e| && Consistent(sb, FilesOf(e, n), owner, used) && SameFiles(FilesOf(d, n), FilesOf(e, n))
  {
    var f, g := FilesOf(d, n), FilesOf(e, n);
    BBlockBound(sb, 0);
    forall i | 0 <= i < n ensures g.inodes[i] == f.inodes[i] {
      assert IBlock(i) < BBlock(sb, 0);
    }
    assert g.inodes == f.inodes;
    VolumeFrame(sb, f, g, owner, used);
  }

  /** Writing the in-core inodes out keeps the volume. */
  lemma {:induction false} InodesOut(sb: Super, f: Fs, owner: map<nat, Owner>, used: set<nat>)
    requires Consistent(sb, f, owner, used) && |f.inodes| <= sb.ninodes && IBlock(|f.inodes|) < |f.blocks|
    ensures var g := FilesOf(WithInodes(f.blocks, f.inodes), |f.inodes|); Consistent(sb, g, owner, used) && SameFiles(f, g)
  {
    var g := FilesOf(WithInodes(f.blocks, f.inodes), |f.inodes|);
    forall i | 0 <= i < |f.inodes| ensures g.inodes[i] == f.inodes[i] { InodeRoundTrip(f.blocks, f.inodes, i); }
    assert g.inodes == f.inodes;
    VolumeFrame(sb, f, g, owner, used);
  }

  // ---- one transaction ---------------------------------------------------------------------------

  function At(e: Disk, secs: seq<nat>): (data: seq<Block>)
    requires forall i :: 0 <= i < |secs| ==> secs[i] < |e|
    ensures |data| == |secs| && forall i :: 0 <= i < |secs| ==> data[i] == e[secs[i]]
  {
    seq(|secs|, i requires 0 <= i < |secs| => e[secs[i]])
  }

  /** The listed sectors fit the log, and no other sector changed. */
  predicate Carries(a: Area, d: Disk, e: Disk, secs: seq<nat>)
  {
    |e| == |d| && Loggable(a, d, secs) && forall s :: 0 <= s < |d| && s !in secs ==> e[s] == d[s]
  }

  /** Logged as one transaction, a change from one consistent volume to another is all or nothing:
      after a crash between any two of its sector writes, recovery leaves the volume before or the
      volume after, consistent and with the contents of all files. */
  lemma {:induction false} VolumeIsAtomic(a: Area, sb: Super, d: Disk, e: Disk, secs: seq<nat>, n: nat,
      owner: map<nat, Owner>, used: set<nat>, owner2: map<nat, Owner>, used2: set<nat>, writes: nat)
    requires Clean(a, d) && Apart(a, sb, d, n) && Carries(a, d, e, secs) && writes <= 2 * |secs| + 2
    requires Consistent(sb, FilesOf(d, n), owner, used) && Consistent(sb, FilesOf(e, n), owner2, used2)
    ensures var c := CommitImage(a, d, secs, At(e, secs), writes);
            Recoverable(a, c) && IBlock(n) < |Recovered(a, c)| &&
            var r := FilesOf(Recovered(a, c), n);
            if writes <= |secs| then Consistent(sb, r, owner, used) && SameFiles(FilesOf(d, n), r)
            else Consistent(sb, r, owner2, used2) && SameFiles(FilesOf(e, n), r)
  {
    var data := At(e, secs);
    CommitIsAtomic(a, d, secs, data, writes);
    PutGathered(d, e, secs, data);
    var r := Recovered(a, CommitImage(a, d, secs, data, writes));
    if writes <= |secs| {
      SameHomeVolume(a, sb, d, r, n, owner, used);
    } else {
      SameHomeVolume(a, sb, e, r, n, owner2, used2);
    }
  }

  // ---- what writei and iupdate send to the log ------------------------------------------------------

  /** A set of sectors below k, in order. */
  function Listed(logged: set<nat>, k: nat): (secs: seq<nat>)
  {
    if k == 0 then [] else Listed(logged, k - 1) + if k - 1 in logged then [k - 1] else []
  }

  lemma {:induction false} ListedIs(logged: set<nat>, k: nat, s: nat)
    ensures s in Listed(logged, k) <==> s in logged && s < k
    decreases k
  {
    if k > 0 { ListedIs(logged, k - 1, s); }
  }

  lemma {:induction false} ListedCount(logged: set<nat>, k: nat)
    ensures |Listed(logged, k)| == |Beneath(logged, k)|
    decreases k
  {
    if k > 0 {
      ListedCount(logged, k - 1);
      BeneathNext(logged, k - 1);
      OneMore(Beneath(logged, k - 1), k - 1);
    }
  }

  ghost function Beneath(s: set<nat>, k: nat): (r: set<nat>)
  {
    set c | c in s && c < k
  }

  lemma BeneathNext(s: set<nat>, k: nat)
    ensures Beneath(s, k + 1) == (if k in s then Beneath(s, k) + {k} else Beneath(s, k)) && k !in Beneath(s, k)
  {
  }

  lemma {:induction false} ListedBelow(logged: set<nat>, k: nat, hi: nat)
    requires forall s :: s in logged ==> s < hi
    ensures forall j :: 0 <= j < |Listed(logged, k)| ==> Listed(logged, k)[j] < k && Listed(logged, k)[j] < hi
  {
    forall j | 0 <= j < |Listed(logged, k)| ensures Listed(logged, k)[j] < k && Listed(logged, k)[j] < hi {
      ListedIs(logged, k, Listed(logged, k)[j]);
    }
  }

  /** Address k of the inode gets a block when the data blocks [b, e) are written. */
  predicate GetsAddr(f: Fs, i: nat, k: nat, b: nat, e: nat)
    requires i < |f.inodes| && k <= NDIRECT
  {
    f.inodes[i].addrs[k] == 0 && if k < NDIRECT then b <= k < e else b < e && NDIRECT < e
  }

  /** The inode changes: its size or one of its addresses. */
  predicate InodeChanges(f: Fs, i: nat, off: nat, n: nat)
    requires i < |f.inodes|
  {
    || GrownSize(f.inodes[i].size, off, n) != f.inodes[i].size
    || exists k :: 0 <= k <= NDIRECT && GetsAddr(f, i, k, off / BSIZE, EndBlock(off, n))
  }

  /** writei's iupdate, which depends on the size alone, misses no change of the inode while every byte
      below the size has a block. */
  lemma {:induction false} SizeDecides(f: Fs, i: nat, off: nat, n: nat)
    requires i < |f.inodes| && Mapped(f, i, f.inodes[i].size) && off <= f.inodes[i].size && off + n <= MAXFILE * BSIZE
    ensures InodeChanges(f, i, off, n) <==> n > 0 && off + n > f.inodes[i].size
  {
    if n > 0 && off + n <= f.inodes[i].size {
      forall k | 0 <= k <= NDIRECT ensures !GetsAddr(f, i, k, off / BSIZE, EndBlock(off, n)) { HasAddr(f, i, off, n, k); }
    }
  }

  lemma {:induction false} HasAddr(f: Fs, i: nat, off: nat, n: nat, k: nat)
    requires i < |f.inodes| && Mapped(f, i, f.inodes[i].size) && 0 < n && off + n <= f.inodes[i].size && off + n <= MAXFILE * BSIZE && k <= NDIRECT
    ensures !GetsAddr(f, i, k, off / BSIZE, EndBlock(off, n))
  {
    if k < NDIRECT && off / BSIZE <= k < EndBlock(off, n) {
      var o := if off < k * BSIZE then k * BSIZE else off;
      assert o / BSIZE == k && Ptr(f, i, SlotOf(o / BSIZE)) != 0;
    } else if k == NDIRECT && NDIRECT < EndBlock(off, n) {
      var o := off + n - 1;
      assert Ptr(f, i, SlotOf(o / BSIZE)) != 0;
      RootInUse(f, i, SlotOf(o / BSIZE));
    }
  }

  /** A slot in use has the tree's root in use. */
  lemma {:induction false} RootInUse(f: Fs, i: nat, s: Slot)
    requires i < |f.inodes| && ValidSlot(s) && !s.Direct? && Ptr(f, i, s) != 0
    ensures Ptr(f, i, Root) != 0
    decreases s
  {
    if s.Child? { RootInUse(f, i, s.parent); }
  }

  /** How many sectors the transaction logs. */
  ghost function TransactionSize(sb: Super, f: Fs, used: set<nat>, i: nat, off: nat, n: nat): (k: nat)
    requires i < |f.inodes| && EndBlock(off, n) <= MAXFILE
  {
    LogNeeds(sb, f, used, i, off / BSIZE, EndBlock(off, n)) + if InodeChanges(f, i, off, n) then 1 else 0
  }

  /** How many sectors log_write must have room for.  Its guard comes before absorption, so a last call
      for a sector logged before needs one more: that of a new data block, unless iupdate follows. */
  ghost function LogRoom(sb: Super, f: Fs, used: set<nat>, i: nat, off: nat, n: nat): (k: nat)
    requires i < |f.inodes| && EndBlock(off, n) <= MAXFILE
  {
    TransactionSize(sb, f, used, i, off, n) + if n > 0 && !InodeChanges(f, i, off, n) && LastMissing(f, i, EndBlock(off, n)) then 1 else 0
  }

  lemma {:induction false} AddrChanges(sb: Super, x: Vol, y: Vol, i: nat, b: nat, e: nat, k: nat)
    requires Progress(sb, x, y, i, b, e) && k <= NDIRECT
    ensures y.f.inodes[i].addrs[k] != x.f.inodes[i].addrs[k] <==> GetsAddr(x.f, i, k, b, e)
  {
    var s := if k < NDIRECT then Direct(k) else Root;
    assert Ptr(x.f, i, s) == x.f.inodes[i].addrs[k] && Ptr(y.f, i, s) == y.f.inodes[i].addrs[k];
    if k < NDIRECT {
      LeafWithin(b, e, k);
      assert SlotOf(k) == s;
    } else {
      IndexWithin(Root, b, e);
    }
  }

  lemma {:induction false} InodeChangesIs(sb: Super, x: Vol, y: Vol, i: nat, off: nat, n: nat)
    requires Progress(sb, x, y, i, off / BSIZE, EndBlock(off, n)) && y.f.inodes[i].size == GrownSize(x.f.inodes[i].size, off, n)
    ensures y.f.inodes[i] != x.f.inodes[i] <==> InodeChanges(x.f, i, off, n)
  {
    forall k | 0 <= k <= NDIRECT ensures y.f.inodes[i].addrs[k] != x.f.inodes[i].addrs[k] <==> GetsAddr(x.f, i, k, off / BSIZE, EndBlock(off, n)) {
      AddrChanges(sb, x, y, i, off / BSIZE, EndBlock(off, n), k);
    }
    if forall k :: 0 <= k <= NDIRECT ==> !GetsAddr(x.f, i, k, off / BSIZE, EndBlock(off, n)) {
      assert y.f.inodes[i].addrs == x.f.inodes[i].addrs;
    }
  }

  /** Writing out inodes that are on the disk changes nothing. */
  lemma {:induction false} InodeSectorSame(d: Disk, inodes: seq<Inode>, s: nat)
    requires 2 <= s <= IBlock(|inodes|) && IBlock(|inodes|) < |d|
    requires forall j :: 0 <= j < |inodes| && IBlock(j) == s ==> inodes[j] == InodeAt(d, j)
    ensures WithInodes(d, inodes)[s] == d[s]
  {
    var e := WithInodes(d, inodes);
    forall w | 0 <= w < WORDS ensures e[s].words[w] == d[s].words[w] {
      InodeOfWord(s - 2, w);
      assert e[s].words[w] == InodeWord(d[s].words[w], inodes, s - 2, w);
    }
  }

  lemma InodeOfWord(q: nat, w: nat)
    requires w < WORDS
    ensures var i := q * IPB + w / IWORDS; i / IPB == q && i % IPB == w / IWORDS && i % IPB * IWORDS + w % IWORDS == w
  {
    assert w / IWORDS < IPB;
  }

  // ---- what such a transaction does ----------------------------------------------------------------

  /** The sectors logged: those of writei, and the inode's if it changed. */
  function Sectors(y: Vol, f: Fs, i: nat): (r: set<nat>)
    requires i < |f.inodes| && i < |y.f.inodes|
  {
    if y.f.inodes[i] != f.inodes[i] then y.logged + {IBlock(i)} else y.logged
  }

  lemma {:induction false} LoggedRange(sb: Super, x: Vol, y: Vol, owner: map<nat, Owner>, i: nat, b: nat, e: nat, c: nat)
    requires Progress(sb, x, y, i, b, e) && x.logged == {} && Consistent(sb, y.f, owner, y.used) && c in y.logged
    ensures BBlock(sb, 0) <= c < sb.hi
  {
    LoggedIs(sb, x, y, i, b, e);
    if c in DataSet(y.f, i, b, e) {
      DataOwned(y.f, owner, i, b, e, c);
      BBlockBound(sb, 0);
    } else if c in BitmapOf(sb, y.used - x.used) {
      BitmapBelow(sb, y.used - x.used, c);
    } else {
      IndexCount(x.f, y.f, owner, i, b, e);
      BBlockBound(sb, 0);
    }
  }

  /** The inode's sector is none of writei's. */
  lemma {:induction false} SectorsCount(sb: Super, x: Vol, y: Vol, owner: map<nat, Owner>, i: nat, off: nat, n: nat)
    requires Progress(sb, x, y, i, off / BSIZE, EndBlock(off, n)) && x.logged == {} && Consistent(sb, y.f, owner, y.used)
    requires y.f.inodes[i].size == GrownSize(x.f.inodes[i].size, off, n) && i < sb.ninodes
    ensures |Sectors(y, x.f, i)| == TransactionSize(sb, x.f, x.used, i, off, n)
    ensures forall c :: c in Sectors(y, x.f, i) ==> c < sb.hi
  {
    LogCount(sb, x, y, owner, i, off / BSIZE, EndBlock(off, n));
    InodeChangesIs(sb, x, y, i, off, n);
    InodeBelow(sb, i);
    forall c | c in y.logged ensures BBlock(sb, 0) <= c < sb.hi { LoggedRange(sb, x, y, owner, i, off / BSIZE, EndBlock(off, n), c); }
    OneMore(y.logged, IBlock(i));
  }

  lemma InodeBelow(sb: Super, i: nat)
    requires i < sb.ninodes
    ensures IBlock(i) < BBlock(sb, 0)
  {
  }

  lemma {:induction false} SameInode(d: Disk, e: Disk, j: nat)
    requires IBlock(j) < |d| && IBlock(j) < |e| && d[IBlock(j)] == e[IBlock(j)]
    ensures InodeAt(d, j) == InodeAt(e, j)
  {
  }

  /** No other sector changes. */
  lemma {:induction false} OnlySectors(sb: Super, d: Disk, n: nat, x: Vol, y: Vol, owner: map<nat, Owner>, i: nat, b: nat, e: nat, c: nat)
    requires n <= sb.ninodes && IBlock(n) < |d| && x.f == FilesOf(d, n) && x.logged == {} && Layout(sb, d)
    requires Progress(sb, x, y, i, b, e) && Consistent(sb, y.f, owner, y.used)
    requires c < |d| && c !in Sectors(y, x.f, i)
    ensures WithInodes(y.f.blocks, y.f.inodes)[c] == d[c]
  {
    var g := y.f;
    assert g.blocks[c] == d[c];
    if 2 <= c <= IBlock(n) {
      forall j | 0 <= j < n && IBlock(j) == c ensures g.inodes[j] == InodeAt(g.blocks, j) {
        assert g.inodes[j] == x.f.inodes[j];
        SameInode(d, g.blocks, j);
      }
      InodeSectorSame(g.blocks, g.inodes, c);
    }
  }

  // ---- writei under a crash --------------------------------------------------------------------------

  /** How a transaction of writei ends: writei refuses or finds no block, log_write finds the log
      full, or the write is committed. */
  datatype Fate = Refused | NoBlock | LogFull | Finished

  /** The most sectors log_write takes. */
  function Capacity(a: Area): (k: int)
  {
    if a.size - 1 < LOGSIZE then a.size - 1 else LOGSIZE
  }

  /** log_write's guard, which comes before absorption, lets every call on the list through. */
  ghost predicate AllTaken(calls: seq<nat>, capacity: int)
  {
    forall k :: 0 <= k < |calls| ==> |SetOf(calls[..k])| < capacity
  }

  /** The last call decides, since what has been logged only grows. */
  lemma {:induction false} LastCallDecides(calls: seq<nat>, capacity: int)
    requires capacity >= 0
    ensures AllTaken(calls, capacity) <==> |SetOf(calls)| + (if Repeats(calls) then 1 else 0) <= capacity
  {
    if calls == [] {
      assert SetOf(calls) == {};
    } else {
      var m := |calls| - 1;
      assert calls == calls[..m] + [calls[m]];
      SetOfNext(calls[..m], calls[m]);
      forall k | 0 <= k <= m ensures |SetOf(calls[..k])| <= |SetOf(calls[..m])| { SubsetCount(SetOf(calls[..k]), SetOf(calls[..m])); }
    }
  }

  /** The calls one after the other. */
  method LogAll(calls: seq<nat>, capacity: int) returns (ok: bool)
    ensures ok <==> AllTaken(calls, capacity)
  {
    var logged: set<nat> := {};
    for k := 0 to |calls|
      invariant logged == SetOf(calls[..k]) && forall j :: 0 <= j < k ==> |SetOf(calls[..j])| < capacity
    {
      if |logged| >= capacity {
        return false;
      }
      SetOfNext(calls[..k], calls[k]);
      assert calls[..k + 1] == calls[..k] + [calls[k]];
      logged := logged + {calls[k]};
    }
    ok := true;
  }

  /** What the size of the file, the free blocks and the log decide. */
  ghost function FateOf(a: Area, sb: Super, f: Fs, used: set<nat>, i: nat, off: nat, n: nat): (r: Fate)
    requires i < |f.inodes|
  {
    if !InBounds(f.inodes[i].size, off, n) then Refused
    else
      EndInFile(off, n, MAXFILE);
      if sb.size < |used| + WriteNeeds(f, i, off / BSIZE, EndBlock(off, n)) then NoBlock
      else if Capacity(a) < LogRoom(sb, f, used, i, off, n) then LogFull
      else Finished
  }

  /** writei on the volume of disk d, and the in-core inodes written out; calls is
      what log_write is called with, and secs are the sectors among that. */
  method WriteOut(sb: Super, d: Disk, n: nat, i: nat, off: Word, src: seq<Byte>, ghost owner: map<nat, Owner>, ghost used: set<nat>)
      returns (r: Io, e: Disk, secs: seq<nat>, calls: seq<nat>, ghost owner2: map<nat, Owner>, ghost used2: set<nat>)
    requires n <= sb.ninodes && IBlock(n) < |d| && Consistent(sb, FilesOf(d, n), owner, used) && i < n && |src| < UINT
    ensures r.Failed? <==> !InBounds(FilesOf(d, n).inodes[i].size, off, |src|)
    ensures !r.Failed? ==> EndBlock(off, |src|) <= MAXFILE
    ensures r.Panicked? <==> !r.Failed? && sb.size < |used| + WriteNeeds(FilesOf(d, n), i, off / BSIZE, EndBlock(off, |src|))
    ensures |e| == |d| && (!r.Done? ==> e == d)
    ensures r.Done? ==> |secs| == TransactionSize(sb, FilesOf(d, n), used, i, off, |src|) && OnlyBelow(d, e, secs, sb.hi)
    ensures r.Done? ==> |SetOf(calls)| + (if Repeats(calls) then 1 else 0) == LogRoom(sb, FilesOf(d, n), used, i, off, |src|)
    ensures r.Done? ==> SetOf(secs) == SetOf(calls)
    ensures r.Done? ==> Consistent(sb, FilesOf(e, n), owner2, used2) && Wrote(FilesOf(d, n), FilesOf(e, n), i, off, src)
  {
    var f := FilesOf(d, n);
    var v := new Volume(sb, d, f.inodes, owner, used);
    ghost var x := v.Whole();
    r := v.Writei(i, off, src);
    e, secs, calls, owner2, used2 := d, [], [], v.owner, v.used;
    if r.Done? {
      var changed := v.inodes[i] != f.inodes[i];
      secs := Listed(if changed then v.logged + {IBlock(i)} else v.logged, |d|);
      calls := if changed then v.calls + [IBlock(i)] else v.calls;
      e := WithInodes(v.blocks, v.inodes);
      SectorsOut(sb, d, n, x, v.Whole(), owner2, i, off, |src|, e, secs);
      InodeChangesIs(sb, x, v.Whole(), i, off, |src|);
      CallsOut(sb, d, x, v.Whole(), owner2, i, off, |src|, v.calls, calls, secs);
      FilesOut(sb, x.f, v.Now(), owner2, used2, i, off, src, e);
    }
  }

  /** What the calls add up to. */
  lemma {:induction false} CallsOut(sb: Super, d: Disk, x: Vol, y: Vol, owner: map<nat, Owner>, i: nat, off: nat, n: nat, was: seq<nat>, calls: seq<nat>, secs: seq<nat>)
    requires Progress(sb, x, y, i, off / BSIZE, EndBlock(off, n)) && x.logged == {} && Consistent(sb, y.f, owner, y.used)
    requires y.f.inodes[i].size == GrownSize(x.f.inodes[i].size, off, n) && i < sb.ninodes && Layout(sb, d)
    requires secs == Listed(Sectors(y, x.f, i), |d|) && y.logged == SetOf(was)
    requires n > 0 ==> (Repeats(was) <==> LastMissing(x.f, i, EndBlock(off, n)))
    requires calls == if y.f.inodes[i] != x.f.inodes[i] then was + [IBlock(i)] else was
    ensures |SetOf(calls)| + (if Repeats(calls) then 1 else 0) == LogRoom(sb, x.f, x.used, i, off, n)
    ensures SetOf(secs) == SetOf(calls)
  {
    SectorsCount(sb, x, y, owner, i, off, n);
    InodeChangesIs(sb, x, y, i, off, n);
    SetOfNext(was, IBlock(i));
    assert SetOf(calls) == Sectors(y, x.f, i);
    SameSectors(calls, Sectors(y, x.f, i), |d|);
    if calls != was {
      NotAgain(sb, x, y, owner, i, off / BSIZE, EndBlock(off, n), was);
    } else if n == 0 {
      NoCalls(sb, x, y, i, off / BSIZE);
      RepeatsIn(was);
    }
  }

  /** writei itself does not log the inode's sector. */
  lemma {:induction false} NotAgain(sb: Super, x: Vol, y: Vol, owner: map<nat, Owner>, i: nat, b: nat, e: nat, was: seq<nat>)
    requires Progress(sb, x, y, i, b, e) && x.logged == {} && Consistent(sb, y.f, owner, y.used) && i < sb.ninodes && y.logged == SetOf(was)
    ensures !Repeats(was + [IBlock(i)])
  {
    InodeBelow(sb, i);
    if IBlock(i) in SetOf(was) {
      LoggedRange(sb, x, y, owner, i, b, e, IBlock(i));
      assert false;
    }
    assert (was + [IBlock(i)])[..|was|] == was;
  }

  lemma {:induction false} SameSectors(calls: seq<nat>, s: set<nat>, k: nat)
    requires SetOf(calls) == s && forall c :: c in s ==> c < k
    ensures SetOf(Listed(s, k)) == SetOf(calls)
  {
    forall c: nat ensures c in Listed(s, k) <==> c in s { ListedIs(s, k, c); }
  }

  lemma RepeatsIn(calls: seq<nat>)
    ensures Repeats(calls) ==> calls[|calls| - 1] in SetOf(calls)
  {
  }

  /** Nothing written, nothing logged. */
  lemma {:induction false} NoCalls(sb: Super, x: Vol, y: Vol, i: nat, b: nat)
    requires Progress(sb, x, y, i, b, b) && x.logged == {}
    ensures y.logged == {}
  {
    forall t ensures !Newly(x.f, y.f, i, t) { assert !Within(t, b, b); }
    forall c ensures c in y.logged <==> Logs(sb, x.f, y.f, i, c) || IsData(y.f, i, b, b, c) { }
  }

  /** Only the listed sectors changed, and they lie below the end of the data area. */
  ghost predicate OnlyBelow(d: Disk, e: Disk, secs: seq<nat>, hi: nat)
  {
    && |e| == |d| && (forall k :: 0 <= k < |secs| ==> secs[k] < |d| && secs[k] < hi)
    && forall s :: 0 <= s < |d| && s !in secs ==> e[s] == d[s]
  }

  lemma {:induction false} SectorsOut(sb: Super, d: Disk, n: nat, x: Vol, y: Vol, owner: map<nat, Owner>, i: nat, off: nat, len: nat, e: Disk, secs: seq<nat>)
    requires n <= sb.ninodes && IBlock(n) < |d| && Layout(sb, d) && i < n && x.f == FilesOf(d, n) && x.logged == {}
    requires Progress(sb, x, y, i, off / BSIZE, EndBlock(off, len)) && Consistent(sb, y.f, owner, y.used)
    requires y.f.inodes[i].size == GrownSize(x.f.inodes[i].size, off, len)
    requires e == WithInodes(y.f.blocks, y.f.inodes) && secs == Listed(Sectors(y, x.f, i), |d|)
    ensures |secs| == TransactionSize(sb, x.f, x.used, i, off, len) && OnlyBelow(d, e, secs, sb.hi)
  {
    SectorsCount(sb, x, y, owner, i, off, len);
    ListedCount(Sectors(y, x.f, i), |d|);
    assert Beneath(Sectors(y, x.f, i), |d|) == Sectors(y, x.f, i);
    ListedBelow(Sectors(y, x.f, i), |d|, sb.hi);
    forall s | 0 <= s < |d| && s !in secs ensures e[s] == d[s] {
      ListedIs(Sectors(y, x.f, i), |d|, s);
      OnlySectors(sb, d, n, x, y, owner, i, off / BSIZE, EndBlock(off, len), s);
    }
  }

  lemma {:induction false} FilesOut(sb: Super, f: Fs, g: Fs, owner: map<nat, Owner>, used: set<nat>, i: nat, off: nat, src: seq<Byte>, e: Disk)
    requires Consistent(sb, g, owner, used) && |g.inodes| <= sb.ninodes && IBlock(|g.inodes|) < |g.blocks|
    requires e == WithInodes(g.blocks, g.inodes) && Wrote(f, g, i, off, src)
    ensures Consistent(sb, FilesOf(e, |g.inodes|), owner, used) && Wrote(f, FilesOf(e, |g.inodes|), i, off, src)
  {
    InodesOut(sb, g, owner, used);
    WroteSame(f, g, FilesOf(e, |g.inodes|), i, off, src);
  }

  lemma {:induction false} WroteSame(f: Fs, g: Fs, h: Fs, i: nat, at: nat, piece: seq<Byte>)
    ensures Wrote(f, g, i, at, piece) && SameFiles(g, h) ==> Wrote(f, h, i, at, piece)
  {
  }

  /** The old contents, or the new. */
  ghost predicate AfterCrash(a: Area, sb: Super, d: Disk, n: nat, i: nat, off: nat, src: seq<Byte>, e: Disk, secs: seq<nat>, writes: nat,
      owner: map<nat, Owner>, used: set<nat>, owner2: map<nat, Owner>, used2: set<nat>)
    requires Clean(a, d) && Apart(a, sb, d, n) && Consistent(sb, FilesOf(d, n), owner, used) && i < n
    requires Carries(a, d, e, secs) && writes <= 2 * |secs| + 2
  {
    var f := FilesOf(d, n);
    var c := CommitImage(a, d, secs, At(e, secs), writes);
    Recoverable(a, c) && IBlock(n) < |Recovered(a, c)| && off <= |Contents(f, i)| &&
    var r := FilesOf(Recovered(a, c), n);
    && Consistent(sb, r, if writes <= |secs| then owner else owner2, if writes <= |secs| then used else used2)
    && Contents(r, i) == (if writes <= |secs| then Contents(f, i) else Written(Contents(f, i), off, src))
    && forall j :: 0 <= j < n && j != i ==> Contents(r, j) == Contents(f, j)
  }

  lemma {:induction false} WriteOrNot(a: Area, sb: Super, d: Disk, n: nat, i: nat, off: nat, src: seq<Byte>, e: Disk, secs: seq<nat>, writes: nat,
      owner: map<nat, Owner>, used: set<nat>, owner2: map<nat, Owner>, used2: set<nat>)
    requires Clean(a, d) && Apart(a, sb, d, n) && Consistent(sb, FilesOf(d, n), owner, used) && i < n
    requires Carries(a, d, e, secs) && writes <= 2 * |secs| + 2
    requires Consistent(sb, FilesOf(e, n), owner2, used2) && Wrote(FilesOf(d, n), FilesOf(e, n), i, off, src)
    ensures AfterCrash(a, sb, d, n, i, off, src, e, secs, writes, owner, used, owner2, used2)
  {
    VolumeIsAtomic(a, sb, d, e, secs, n, owner, used, owner2, used2, writes);
  }

  lemma {:induction false} LogHolds(a: Area, sb: Super, d: Disk, e: Disk, secs: seq<nat>, n: nat)
    requires Fits(a, d) && Apart(a, sb, d, n) && OnlyBelow(d, e, secs, sb.hi)
    ensures Carries(a, d, e, secs) <==> |secs| <= Capacity(a)
  {
  }

  /** writei and iupdate on the volume of disk d, committed as one transaction of the sectors secs
      that turns it into e; calls is what log_write is called with.  The size of the file, the free blocks and the log decide how it ends.
      After a crash at any sector write, and recovery, the file holds what it held or what was
      written, every other file what it held, and the volume is consistent. */
  method WriteUnderCrash(a: Area, sb: Super, d: Disk, n: nat, i: nat, off: Word, src: seq<Byte>, ghost owner: map<nat, Owner>, ghost used: set<nat>)
      returns (r: Fate, e: Disk, secs: seq<nat>, calls: seq<nat>, ghost owner2: map<nat, Owner>, ghost used2: set<nat>)
    requires Clean(a, d) && Apart(a, sb, d, n) && Consistent(sb, FilesOf(d, n), owner, used) && i < n && |src| < UINT
    ensures r == FateOf(a, sb, FilesOf(d, n), used, i, off, |src|)
    ensures r != Finished ==> e == d
    ensures r == LogFull ==> !AllTaken(calls, Capacity(a))
    ensures r == Finished ==> AllTaken(calls, Capacity(a)) && SetOf(secs) == SetOf(calls)
    ensures r == Finished ==>
              && Carries(a, d, e, secs) && EndBlock(off, |src|) <= MAXFILE && |secs| == TransactionSize(sb, FilesOf(d, n), used, i, off, |src|)
              && Consistent(sb, FilesOf(e, n), owner2, used2) && Wrote(FilesOf(d, n), FilesOf(e, n), i, off, src)
              && forall writes: nat :: writes <= 2 * |secs| + 2 ==>
                   AfterCrash(a, sb, d, n, i, off, src, e, secs, writes, owner, used, owner2, used2)
  {
    var io;
    io, e, secs, calls, owner2, used2 := WriteOut(sb, d, n, i, off, src, owner, used);
    match io
    case Failed => r := Refused;
    case Panicked => r := NoBlock;
    case Done(_) =>
      LogHolds(a, sb, d, e, secs, n);
      LastCallDecides(calls, Capacity(a));
      var ok := LogAll(calls, Capacity(a));
      if !ok {
        r, e := LogFull, d;
      } else {
        r := Finished;
        forall writes: nat | writes <= 2 * |secs| + 2 ensures AfterCrash(a, sb, d, n, i, off, src, e, secs, writes, owner, used, owner2, used2) {
          WriteOrNot(a, sb, d, n, i, off, src, e, secs, writes, owner, used, owner2, used2);
        }
      }
  }

  /** At most the data blocks, three index blocks, the bitmap and one inode sector. */
  lemma {:induction false} TransactionBound(sb: Super, f: Fs, used: set<nat>, i: nat, off: nat, n: nat)
    requires i < |f.inodes| && EndBlock(off, n) <= MAXFILE && 0 < sb.size && BBlock(sb, sb.size - 1) < sb.lo
    requires (forall c :: c in used ==> c < sb.size) && |used| + WriteNeeds(f, i, off / BSIZE, EndBlock(off, n)) <= sb.size
    ensures LogRoom(sb, f, used, i, off, n) <= EndBlock(off, n) - off / BSIZE + 4 + BitmapSectors(sb)
  {
    LogBound(sb, f, used, i, off / BSIZE, EndBlock(off, n));
  }

  /** If the log takes that many, it is never found full. */
  lemma {:induction false} LogSuffices(a: Area, sb: Super, f: Fs, owner: map<nat, Owner>, used: set<nat>, i: nat, off: nat, n: nat)
    requires i < |f.inodes| && Consistent(sb, f, owner, used) && EndBlock(off, n) - off / BSIZE + 4 + BitmapSectors(sb) <= Capacity(a)
    ensures FateOf(a, sb, f, used, i, off, n) != LogFull
  {
    if InBounds(f.inodes[i].size, off, n) {
      EndInFile(off, n, MAXFILE);
      if |used| + WriteNeeds(f, i, off / BSIZE, EndBlock(off, n)) <= sb.size {
        TransactionBound(sb, f, used, i, off, n);
      }
    }
  }
}
