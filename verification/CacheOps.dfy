/** The read-copy-write sequences log.c performs on the buffer cache while nothing
    else is locked, and the count of buffers they need. */
module CacheOps {
  import opened Sequences
  import opened Blocks
  import opened BufferCache

  ghost function DirtyBufs(buf: seq<Buf>): (r: set<nat>)
  {
    set b | 0 <= b < |buf| && buf[b].dirty
  }

  ghost predicate NoneBusy(buf: seq<Buf>)
  {
    forall b :: 0 <= b < |buf| ==> !buf[b].busy
  }

  ghost predicate Distinct(secs: seq<nat>)
  {
    forall i, j :: 0 <= i < j < |secs| ==> secs[i] != secs[j]
  }

  // ---- counting buffers --------------------------------------------------------

  ghost function Below(k: nat): (r: set<nat>)
    ensures forall b :: b in r <==> 0 <= b < k
    ensures |r| == k
  {
    if k == 0 then {} else Below(k - 1) + {k - 1}
  }

  /** Fewer dirty buffers than buffers, none busy: one can be recycled. */
  lemma SomeRecyclable(buf: seq<Buf>)
    requires NoneBusy(buf)
    ensures |DirtyBufs(buf)| < |buf| <==> exists b :: 0 <= b < |buf| && Recyclable(buf[b])
    ensures |DirtyBufs(buf)| <= |buf|
  {
    var all := Below(|buf|);
    assert DirtyBufs(buf) <= all;
    SubsetCount(DirtyBufs(buf), all);
    if b :| 0 <= b < |buf| && Recyclable(buf[b]) {
      assert b in all && b !in DirtyBufs(buf);
      SubsetCount(DirtyBufs(buf), all - {b});
    } else {
      assert all <= DirtyBufs(buf) by {
        forall b | b in all ensures b in DirtyBufs(buf) { assert !Recyclable(buf[b]); }
      }
      assert DirtyBufs(buf) == all;
    }
  }

  /** Each dirty buffer holds its own listed sector, so there are at most as many of them. */
  lemma {:induction false} DirtyBound(bufs: set<nat>, buf: seq<Buf>, secs: seq<nat>)
    requires forall b :: b in bufs ==> b < |buf| && buf[b].sector in secs
    requires forall b, c :: b in bufs && c in bufs && b != c ==> buf[b].sector != buf[c].sector
    ensures |bufs| <= |secs|
    decreases |secs|
  {
    if bufs != {} {
      var b :| b in bufs;
      var i :| 0 <= i < |secs| && secs[i] == buf[b].sector;
      var rest := secs[..i] + secs[i + 1..];
      forall c | c in bufs - {b} ensures buf[c].sector in rest {
        var j :| 0 <= j < |secs| && secs[j] == buf[c].sector;
        assert rest[if j < i then j else j - 1] == buf[c].sector;
      }
      DirtyBound(bufs - {b}, buf, rest);
      assert bufs == (bufs - {b}) + {b};
    }
  }

  /** Distinct sectors are held dirty by distinct buffers, so there are at least as many of those. */
  lemma {:induction false} DirtyFloor(bufs: set<nat>, buf: seq<Buf>, secs: seq<nat>)
    requires Distinct(secs)
    requires forall s :: s in secs ==> exists b :: b in bufs && b < |buf| && buf[b].sector == s
    ensures |secs| <= |bufs|
    decreases |secs|
  {
    if secs != [] {
      var m := |secs| - 1;
      assert secs[m] in secs;
      var b :| b in bufs && b < |buf| && buf[b].sector == secs[m];
      forall s | s in secs[..m] ensures exists c :: c in bufs - {b} && c < |buf| && buf[c].sector == s {
        assert s in secs && s != secs[m];
        var c :| c in bufs && c < |buf| && buf[c].sector == s;
        assert c in bufs - {b};
      }
      DirtyFloor(bufs - {b}, buf, secs[..m]);
      assert bufs == (bufs - {b}) + {b};
    }
  }

  /** With nothing locked, a sector that is not pinned reads as the disk has it. */
  lemma CleanIsDisk(c: Bcache, s: nat)
    requires c.Valid() && NoneBusy(c.buf) && s < |c.disk| && !c.Pinned(s)
    ensures c.latest[s] == c.disk[s]
  {
    if s in c.at {
      assert Coherent(c.buf[c.at[s]], c.disk, c.latest);
    }
  }

  lemma NoDirtyBufs(c: Bcache)
    requires c.Valid() && forall t :: !c.Pinned(t)
    ensures DirtyBufs(c.buf) == {}
  {
    forall b | 0 <= b < |c.buf| ensures !c.buf[b].dirty {
      assert Coherent(c.buf[b], c.disk, c.latest);
      assert !c.Pinned(c.buf[b].sector);
    }
  }

  /** With every buffer pinned, only pinned sectors are cached. */
  lemma OnlyPinnedCached(c: Bcache, s: nat)
    requires Quiet(c) && forall b :: 0 <= b < NBUF ==> !Recyclable(c.buf[b])
    ensures s in c.at ==> c.Pinned(s)
  {
    if s in c.at {
      assert !Recyclable(c.buf[c.at[s]]);
    }
  }

  lemma NothingPinned(c: Bcache)
    requires c.Valid() && |DirtyBufs(c.buf)| == 0
    ensures forall t :: !c.Pinned(t)
  {
    forall t ensures !c.Pinned(t) {
      if t in c.at && c.at[t] < |c.buf| {
        assert c.at[t] !in DirtyBufs(c.buf);
      }
    }
  }

  /** Pinned sectors and dirty buffers are equally many. */
  lemma DirtyCount(c: Bcache, secs: seq<nat>)
    requires c.Valid() && Distinct(secs) && forall t :: c.Pinned(t) <==> t in secs
    ensures |DirtyBufs(c.buf)| == |secs|
  {
    forall b | b in DirtyBufs(c.buf) ensures c.buf[b].sector in secs && c.at[c.buf[b].sector] == b {
      assert Coherent(c.buf[b], c.disk, c.latest);
      assert c.Pinned(c.buf[b].sector);
    }
    DirtyBound(DirtyBufs(c.buf), c.buf, secs);
    forall s | s in secs ensures exists b :: b in DirtyBufs(c.buf) && b < |c.buf| && c.buf[b].sector == s {
      assert c.Pinned(s);
      assert c.at[s] in DirtyBufs(c.buf);
    }
    DirtyFloor(DirtyBufs(c.buf), c.buf, secs);
  }

  /** With two unpinned buffers, one is left after locking another. */
  lemma SecondRecyclable(buf: seq<Buf>, taken: nat)
    requires NoneBusy(buf) && |DirtyBufs(buf)| < |buf| - 1
    ensures exists k :: 0 <= k < |buf| && k != taken && Recyclable(buf[k])
  {
    var all := Below(|buf|);
    if forall k :: 0 <= k < |buf| && k != taken ==> !Recyclable(buf[k]) {
      forall k | k in all - {taken} ensures k in DirtyBufs(buf) { assert !Recyclable(buf[k]); }
      SubsetCount(all - {taken}, DirtyBufs(buf));
    }
  }

  /** Nothing is locked. */
  ghost predicate Quiet(c: Bcache)
    reads c
  {
    c.Valid() && NoneBusy(c.buf)
  }

  /** How many buffers are pinned. */
  ghost function Dirties(c: Bcache): (n: nat)
    reads c
  {
    |DirtyBufs(c.buf)|
  }

  /** bread of a sector nobody has locked, while it is cached or some buffer can be recycled. */
  method Lock(c: Bcache, s: nat) returns (b: nat)
    requires c.Valid() && s < |c.disk|
    requires s in c.at ==> !c.buf[c.at[s]].busy
    requires s in c.at || exists k :: 0 <= k < NBUF && Recyclable(c.buf[k])
    modifies c`buf, c`disk, c`trace, c`at
    ensures c.Valid() && c.disk == old(c.disk) && c.trace == old(c.trace)
    ensures b < NBUF && s in c.at && c.at[s] == b && !old(c.buf)[b].busy
    ensures c.buf[b] == Buf(true, true, old(c.Pinned(s)), DISK, s, c.latest[s])
    ensures forall k :: 0 <= k < NBUF && k != b ==> c.buf[k] == old(c.buf)[k]
    ensures forall t :: c.Pinned(t) <==> old(c.Pinned(t))
    ensures DirtyBufs(c.buf) == DirtyBufs(old(c.buf))
  {
    var r := c.Bread(DISK, s);
    b := r.b;
  }

  /** memmove into a locked buffer, then bwrite. */
  method Deposit(c: Bcache, b: nat, data: Block)
    requires c.Valid() && b < NBUF && c.buf[b].busy
    modifies c`buf, c`latest, c`disk, c`trace
    ensures c.Valid()
    ensures c.buf == old(c.buf)[b := old(c.buf)[b].(data := data, dirty := false)]
    ensures var s := old(c.buf)[b].sector;
            && s < |old(c.disk)|
            && c.disk == old(c.disk)[s := data] && c.latest == old(c.latest)[s := data]
            && (forall t :: c.Pinned(t) <==> old(c.Pinned(t)) && t != s)
    ensures c.trace == old(c.trace) + [c.disk]
  {
    assert Coherent(c.buf[b], c.disk, c.latest);
    c.Modify(b, data);
    var ok := c.Bwrite(b);
  }

  /** memmove(dst, src); bwrite(dst); brelse(src); brelse(dst): the common tail of
      write_log and install_trans. */
  method Transfer(c: Bcache, src: nat, dst: nat)
    requires c.Valid() && src < NBUF && dst < NBUF && src != dst
    requires forall k :: 0 <= k < NBUF ==> (c.buf[k].busy <==> k == src || k == dst)
    requires c.buf[src].dirty || c.buf[src].data == c.disk[c.buf[src].sector]
    modifies c
    ensures Quiet(c)
    ensures var s, d := old(c.buf)[src].sector, old(c.buf)[dst].sector;
            && s < |old(c.disk)| && d < |old(c.disk)|
            && c.disk == old(c.disk)[d := old(c.latest)[s]]
            && c.latest == old(c.latest)[d := old(c.latest)[s]]
            && (forall t :: c.Pinned(t) <==> old(c.Pinned(t)) && t != d)
    ensures c.trace == old(c.trace) + [c.disk]
    ensures DirtyBufs(c.buf) <= DirtyBufs(old(c.buf))
  {
    assert Coherent(c.buf[src], c.disk, c.latest);
    Deposit(c, dst, c.buf[src].data);
    ReleaseBoth(c, src, dst);
  }

  /** brelse(src); brelse(dst). */
  method ReleaseBoth(c: Bcache, src: nat, dst: nat)
    requires c.Valid() && src < NBUF && dst < NBUF && src != dst
    requires forall k :: 0 <= k < NBUF ==> (c.buf[k].busy <==> k == src || k == dst)
    requires forall k :: k in {src, dst} && c.buf[k].valid && !c.buf[k].dirty ==> c.buf[k].data == c.disk[c.buf[k].sector]
    modifies c`buf, c`next, c`prev, c`order
    ensures Quiet(c) && DirtyBufs(c.buf) == DirtyBufs(old(c.buf))
    ensures forall t :: c.Pinned(t) <==> old(c.Pinned(t))
  {
    var ok := c.Brelse(src);
    ok := c.Brelse(dst);
  }

  /** One turn of the loop in write_log: the destination is read first. */
  method CopyToLog(c: Bcache, from: nat, to: nat)
    requires Quiet(c) && from < |c.disk| && to < |c.disk| && from != to
    requires c.Pinned(from) && !c.Pinned(to) && Dirties(c) < NBUF
    modifies c
    ensures Quiet(c)
    ensures c.disk == old(c.disk)[to := old(c.latest)[from]] && c.latest == old(c.latest)[to := old(c.latest)[from]]
    ensures c.trace == old(c.trace) + [c.disk]
    ensures Dirties(c) <= old(Dirties(c))
    ensures forall t :: c.Pinned(t) <==> old(c.Pinned(t))
  {
    var tb, fb := LockBoth(c, from, to);
    Transfer(c, fb, tb);
    SubsetCount(DirtyBufs(c.buf), DirtyBufs(old(c.buf)));
  }

  /** bread of an unpinned sector and of a pinned one. */
  method LockBoth(c: Bcache, from: nat, to: nat) returns (tb: nat, fb: nat)
    requires Quiet(c) && from < |c.disk| && to < |c.disk| && from != to
    requires c.Pinned(from) && Dirties(c) < NBUF
    modifies c`buf, c`disk, c`trace, c`at
    ensures c.Valid() && c.disk == old(c.disk) && c.trace == old(c.trace)
    ensures tb < NBUF && fb < NBUF && tb != fb && c.buf[tb].sector == to && c.buf[fb].sector == from && c.buf[fb].dirty
    ensures forall k :: 0 <= k < NBUF ==> (c.buf[k].busy <==> k == fb || k == tb)
    ensures (forall t :: c.Pinned(t) <==> old(c.Pinned(t))) && DirtyBufs(c.buf) == DirtyBufs(old(c.buf))
  {
    SomeRecyclable(c.buf);
    tb := Lock(c, to);
    fb := Lock(c, from);
  }

  /** One turn of the loop in install_trans: the log block is read first. */
  method CopyHome(c: Bcache, from: nat, to: nat)
    requires Quiet(c) && from < |c.disk| && to < |c.disk| && from != to
    requires !c.Pinned(from) && Dirties(c) < NBUF && (c.Pinned(to) || Dirties(c) < NBUF - 1)
    modifies c
    ensures Quiet(c)
    ensures c.disk == old(c.disk)[to := old(c.disk)[from]] && c.latest == old(c.latest)[to := old(c.disk)[from]]
    ensures c.trace == old(c.trace) + [c.disk]
    ensures Dirties(c) <= old(Dirties(c))
    ensures forall t :: c.Pinned(t) <==> old(c.Pinned(t)) && t != to
  {
    SomeRecyclable(c.buf);
    CleanIsDisk(c, from);
    var fb := Lock(c, from);
    if !c.Pinned(to) {
      SecondRecyclable(old(c.buf), fb);
    }
    var tb := Lock(c, to);
    Transfer(c, fb, tb);
    SubsetCount(DirtyBufs(c.buf), DirtyBufs(old(c.buf)));
  }

  /** Overwrite one unpinned sector: bread, change, bwrite, brelse. */
  method Overwrite(c: Bcache, b: nat, data: Block)
    requires c.Valid() && b < NBUF && !c.buf[b].dirty
    requires forall k :: 0 <= k < NBUF ==> (c.buf[k].busy <==> k == b)
    modifies c
    ensures Quiet(c)
    ensures var s := old(c.buf)[b].sector;
            && s < |old(c.disk)|
            && c.disk == old(c.disk)[s := data] && c.latest == old(c.latest)[s := data]
    ensures c.trace == old(c.trace) + [c.disk]
    ensures Dirties(c) == old(Dirties(c))
    ensures forall t :: c.Pinned(t) <==> old(c.Pinned(t))
  {
    Deposit(c, b, data);
    var ok := c.Brelse(b);
    assert DirtyBufs(c.buf) == DirtyBufs(old(c.buf));
  }
}
