/** The block cache of bio.c over the memory disk of memide.c.

    Buffers are named by their index in bcache.buf; the list head is the extra
    index HEAD, so prev/next are index-linked.  A call that would sleep returns
    Asleep with nothing changed: the sleeper starts the lookup over when woken.
    Every method is one step, so a run of the cache is any sequence of calls by
    any processes. */
module BufferCache {
  import opened Blocks

  const NBUF: nat := 30
  const HEAD: nat := NBUF
  const NODEV: Word := 0xffff_ffff   // b->dev = -1
  const DISK: Word := 1              // the only device iderw accepts

  datatype Buf = Buf(busy: bool, valid: bool, dirty: bool, dev: Word, sector: nat, data: Block)

  datatype Grab = Got(b: nat) | Asleep | Panicked

  /** The circular list written out from the head back to the head. */
  ghost function Around(order: seq<nat>): (full: seq<nat>)
  {
    [HEAD] + order + [HEAD]
  }

  /** prev/next form one ring through the head that visits `order`. */
  ghost predicate Ring(next: seq<nat>, prev: seq<nat>, order: seq<nat>)
  {
    && |next| == |prev| == NBUF + 1
    && (forall i :: 0 <= i < |order| ==> order[i] < NBUF)
    && (forall i, j :: 0 <= i < j < |order| ==> order[i] != order[j])
    && (forall i {:trigger next[Around(order)[i]]} :: 0 <= i <= |order| ==> next[Around(order)[i]] == Around(order)[i + 1])
    && (forall i {:trigger prev[Around(order)[i]]} :: 1 <= i <= |order| + 1 ==> prev[Around(order)[i]] == Around(order)[i - 1])
  }

  /** `order` with the buffer at position p moved to the front. */
  ghost function Front(order: seq<nat>, p: nat): (r: seq<nat>)
    requires p < |order|
  {
    [order[p]] + order[..p] + order[p + 1..]
  }

  predicate Holds(x: Buf, dev: Word, sector: nat)
  {
    x.dev == dev && x.sector == sector
  }

  predicate Recyclable(x: Buf)
  {
    !x.busy && !x.dirty
  }

  /** What one buffer may hold, against the disk and the latest contents. */
  ghost predicate Coherent(x: Buf, disk: Disk, latest: Disk)
  {
    && |latest| == |disk|
    && (x.dirty || x.busy ==> x.valid)
    && (x.valid <==> x.dev != NODEV)
    && (x.valid ==> x.dev == DISK && x.sector < |disk| && x.data == latest[x.sector])
    && (x.valid && Recyclable(x) ==> x.data == disk[x.sector])
  }

  /** `at` locates the buffer of every cached sector. */
  ghost predicate Located(buf: seq<Buf>, at: map<nat, nat>)
  {
    && (forall b :: 0 <= b < |buf| && buf[b].valid ==> buf[b].sector in at && at[buf[b].sector] == b)
    && (forall s :: s in at ==> at[s] < |buf| && buf[at[s]].valid && buf[at[s]].sector == s)
  }

  /** Buffer b already held the sector and was idle; it is now locked. */
  ghost predicate Hit(was: seq<Buf>, now: seq<Buf>, b: nat, dev: Word, sector: nat)
    requires b < |was|
  {
    Holds(was[b], dev, sector) && !was[b].busy && now == was[b := was[b].(busy := true)]
  }

  /** The sector was nowhere cached; b is the least recently released buffer that
      is neither busy nor dirty, and it is now locked for the sector, unread. */
  ghost predicate Recycled(was: seq<Buf>, now: seq<Buf>, order: seq<nat>, b: nat, dev: Word, sector: nat)
    requires b < |was| && forall i :: 0 <= i < |order| ==> order[i] < |was|
  {
    && (forall k :: 0 <= k < |was| ==> !Holds(was[k], dev, sector))
    && Recyclable(was[b])
    && now == was[b := Buf(true, false, false, dev, sector, was[b].data)]
    && exists p :: 0 <= p < |order| && order[p] == b && forall q :: p < q < |order| ==> !Recyclable(was[order[q]])
  }

  class Bcache {
    var buf: seq<Buf>
    var next: seq<nat>
    var prev: seq<nat>
    var disk: Disk
    ghost var order: seq<nat>     // buffers from head.next: most recently released first
    ghost var latest: Disk        // the plain sector array the cache must look like
    ghost var at: map<nat, nat>   // where each cached sector is
    ghost var trace: seq<Disk>    // the disk after each sector write

    ghost predicate Valid()
      reads this
    {
      Linked() && Consistent(buf)
    }

    /** The ring holds every buffer. */
    ghost predicate Linked()
      reads this
    {
      && |order| == NBUF && Ring(next, prev, order)
      && (forall b :: 0 <= b < NBUF ==> b in order)
    }

    /** The sector has contents that only a buffer holds. */
    ghost predicate Pinned(s: nat)
      reads this
    {
      s in at && at[s] < |buf| && buf[at[s]].dirty
    }

    /** No two buffers hold the same (dev, sector), the initial dev = -1 apart. */
    lemma NoDuplicates(i: nat, j: nat)
      requires Valid() && i < NBUF && j < NBUF && i != j && buf[i].dev != NODEV
      ensures !Holds(buf[j], buf[i].dev, buf[i].sector)
    {
      assert Coherent(buf[i], disk, latest) && Coherent(buf[j], disk, latest);
    }

    /** binit (bio.c): the list starts in reverse index order, every buffer unassigned. */
    constructor (image: Disk)
      ensures Valid()
      ensures disk == latest == image && trace == []
      ensures forall i :: 0 <= i < NBUF ==> order[i] == NBUF - 1 - i
      ensures forall b :: 0 <= b < NBUF ==> Recyclable(buf[b]) && !buf[b].valid
    {
      var nx: seq<nat> := seq(NBUF + 1, i => 0);
      var pv: seq<nat> := seq(NBUF + 1, i => 0);
      nx, pv := nx[HEAD := HEAD], pv[HEAD := HEAD];
      var b := 0;
      ghost var ord: seq<nat> := [];
      while b < NBUF
        invariant 0 <= b <= NBUF && |ord| == b
        invariant Ring(nx, pv, ord)
        invariant forall i :: 0 <= i < b ==> ord[i] == b - 1 - i
      {
        ghost var was := ord;
        ghost var nx0, pv0 := nx, pv;
        var first := nx[HEAD];
        assert first == Around(was)[1] by { assert Around(was)[0] == HEAD; }
        nx := nx[b := first];
        pv := pv[b := HEAD];
        pv := pv[first := b];
        nx := nx[HEAD := b];
        ord := [b] + ord;
        InsertFront(nx0, pv0, was, nx, pv, b, first);
        b := b + 1;
      }
      buf := seq(NBUF, i => Buf(false, false, false, NODEV, 0, Zero()));
      next, prev := nx, pv;
      disk := image;
      latest := image;
      at := map[];
      order := ord;
      trace := [];
      new;
      forall k | 0 <= k < NBUF ensures k in order {
        assert order[NBUF - 1 - k] == k;
      }
    }

    /** bget (bio.c). */
    method Bget(dev: Word, sector: nat) returns (r: Grab)
      requires Valid()
      modifies this`buf
      ensures r.Got? ==> r.b < NBUF && (Hit(old(buf), buf, r.b, dev, sector) || Recycled(old(buf), buf, order, r.b, dev, sector))
      ensures r.Asleep? ==> buf == old(buf) && exists b :: 0 <= b < NBUF && Holds(buf[b], dev, sector) && buf[b].busy
      ensures r.Panicked? ==>
                && buf == old(buf)
                && (forall b :: 0 <= b < NBUF ==> !Holds(buf[b], dev, sector))
                && (forall b :: 0 <= b < NBUF ==> !Recyclable(buf[b]))
    {
      ghost var full := Around(order);
      var b := next[HEAD];
      ghost var i := 1;
      assert full[0] == HEAD;
      while b != HEAD
        invariant 1 <= i <= NBUF + 1 && b == full[i]
        invariant forall k :: 1 <= k < i ==> !Holds(buf[full[k]], dev, sector)
        invariant buf == old(buf)
        decreases NBUF + 1 - i
      {
        if Holds(buf[b], dev, sector) {
          if !buf[b].busy {
            buf := buf[b := buf[b].(busy := true)];
            return Got(b);
          }
          return Asleep;
        }
        assert next[full[i]] == full[i + 1];
        b := next[b];
        i := i + 1;
      }
      forall k | 0 <= k < NBUF ensures !Holds(buf[k], dev, sector) {
        assert k in order;
        var p :| 0 <= p < NBUF && order[p] == k;
        assert full[p + 1] == k;
      }
      b := prev[HEAD];
      i := NBUF;
      assert full[NBUF + 1] == HEAD && prev[full[NBUF + 1]] == full[NBUF];
      while b != HEAD
        invariant 0 <= i <= NBUF && b == full[i]
        invariant forall k :: i < k <= NBUF ==> !Recyclable(buf[full[k]])
        invariant buf == old(buf)
        decreases i
      {
        if !buf[b].busy && !buf[b].dirty {
          forall q | i - 1 < q < NBUF ensures !Recyclable(buf[order[q]]) { assert order[q] == full[q + 1]; }
          assert order[i - 1] == b;
          buf := buf[b := Buf(true, false, false, dev, sector, buf[b].data)];
          return Got(b);
        }
        assert prev[full[i]] == full[i - 1];
        b := prev[b];
        i := i - 1;
      }
      forall k | 0 <= k < NBUF ensures !Recyclable(buf[k]) {
        assert k in order;
        var p :| 0 <= p < NBUF && order[p] == k;
        assert full[p + 1] == k;
      }
      return Panicked;
    }

    /** iderw (memide.c): one whole-sector transfer, and the flags that follow it. */
    method Iderw(b: nat) returns (ok: bool)
      requires b < |buf|
      modifies this`buf, this`disk, this`trace
      ensures |buf| == |old(buf)| && buf[b].sector == old(buf)[b].sector
      ensures ok == (buf[b].busy && (old(buf)[b].dirty || !old(buf)[b].valid) && buf[b].dev == DISK && buf[b].sector < |disk|)
      ensures !ok ==> buf == old(buf) && disk == old(disk) && trace == old(trace)
      ensures ok && old(buf)[b].dirty ==>
                && buf == old(buf)[b := old(buf)[b].(dirty := false, valid := true)]
                && buf[b].sector < |old(disk)| && disk == old(disk)[buf[b].sector := buf[b].data]
                && trace == old(trace) + [disk]
      ensures ok && !old(buf)[b].dirty ==>
                && buf == old(buf)[b := old(buf)[b].(valid := true, data := disk[buf[b].sector])]
                && disk == old(disk) && trace == old(trace)
    {
      var x := buf[b];
      if !x.busy || (x.valid && !x.dirty) || x.dev != DISK || x.sector >= |disk| {
        return false;
      }
      if x.dirty {
        disk := disk[x.sector := x.data];
        trace := trace + [disk];
        buf := buf[b := x.(dirty := false, valid := true)];
      } else {
        buf := buf[b := x.(valid := true, data := disk[x.sector])];
      }
      return true;
    }

    /** The cache as it was before a lookup took buffer b for an uncached sector. */
    ghost predicate Consistent(was: seq<Buf>)
      reads this
    {
      && |was| == NBUF && Located(was, at) && |latest| == |disk|
      && (forall k :: 0 <= k < NBUF ==> Coherent(was[k], disk, latest))
      && (forall s :: 0 <= s < |disk| && s !in at ==> latest[s] == disk[s])
    }

    /** The read half of bread: fill the recycled buffer from the disk. */
    method ReadIn(b: nat, ghost was: seq<Buf>) returns (ok: bool)
      requires Consistent(was) && b < NBUF && Recyclable(was[b])
      requires |buf| == NBUF && buf == was[b := buf[b]] && buf[b].busy && !buf[b].valid && !buf[b].dirty
      requires buf[b].dev == DISK ==> buf[b].sector !in at
      modifies this`buf, this`disk, this`trace, this`at
      ensures disk == old(disk) && trace == old(trace)
      ensures ok == (old(buf)[b].dev == DISK && old(buf)[b].sector < |disk|)
      ensures ok ==>
                && Consistent(buf)
                && var s := old(buf)[b].sector;
                && buf == was[b := Buf(true, true, false, DISK, s, latest[s])]
                && s in at && at[s] == b && s !in old(at)
                && (forall t :: Pinned(t) <==> t in old(at) && was[old(at)[t]].dirty)
    {
      ok := Iderw(b);
      if ok {
        ghost var s := buf[b].sector;
        assert Coherent(was[b], disk, latest);
        at := Moved(at, was[b], b, s);
        Relocated(was, buf, old(at), b, s);
      }
    }

    /** bread (bio.c): the caller gets the sector's latest contents, locked. */
    method Bread(dev: Word, sector: nat) returns (r: Grab)
      requires Valid()
      modifies this`buf, this`disk, this`trace, this`at
      ensures disk == old(disk) && trace == old(trace)
      ensures r.Got? ==>
                && Valid()
                && r.b < NBUF && dev == DISK && sector < |disk| && !old(buf)[r.b].busy
                && sector in at && at[sector] == r.b
                && buf[r.b] == Buf(true, true, old(Pinned(sector)), DISK, sector, latest[sector])
                && (forall k :: 0 <= k < NBUF && k != r.b ==> buf[k] == old(buf)[k])
                && (forall s :: Pinned(s) <==> old(Pinned(s)))
                && (sector !in old(at) ==> Recyclable(old(buf)[r.b]))
      ensures r.Asleep? && dev == DISK ==> sector in at && at[sector] < |buf| && buf[at[sector]].busy
      ensures r.Asleep? ==> buf == old(buf) && at == old(at) && exists b :: 0 <= b < NBUF && Holds(buf[b], dev, sector) && buf[b].busy
      ensures r.Panicked? ==> dev != DISK || sector >= |disk|
                              || (sector !in old(at) && forall b :: 0 <= b < NBUF ==> !Recyclable(old(buf)[b]))
    {
      r := Bget(dev, sector);
      CachedHolds(old(buf), at, disk, latest, sector);
      if r.Got? {
        var ok := FillTaken(r.b, dev, sector, old(buf));
        if !ok {
          return Panicked;
        }
      }
    }

    /** bread's second half: the buffer is read in unless it was a hit. */
    method FillTaken(b: nat, ghost dev: Word, ghost sector: nat, ghost was: seq<Buf>) returns (ok: bool)
      requires Linked() && Consistent(was) && b < NBUF && (Hit(was, buf, b, dev, sector) || Recycled(was, buf, order, b, dev, sector))
      modifies this`buf, this`disk, this`trace, this`at
      ensures disk == old(disk) && trace == old(trace)
      ensures !ok ==> dev != DISK || sector >= |disk|
      ensures ok ==>
                && Valid()
                && dev == DISK && sector < |disk| && !was[b].busy
                && sector in at && at[sector] == b
                && buf == was[b := Buf(true, true, sector in old(at) && was[b].dirty, DISK, sector, latest[sector])]
                && (forall s :: Pinned(s) <==> s in old(at) && was[old(at)[s]].dirty)
                && (sector !in old(at) ==> Recyclable(was[b]))
    {
      ok := true;
      assert Coherent(was[b], disk, latest);
      if !buf[b].valid {
        ok := ReadIn(b, was);
      } else {
        HitKeeps(was, buf, at, b);
      }
    }

    /** The holder of a locked buffer changes its data. */
    method Modify(b: nat, data: Block)
      requires Valid() && b < NBUF && buf[b].busy && buf[b].valid
      modifies this`buf, this`latest
      ensures Valid()
      ensures buf == old(buf)[b := old(buf)[b].(data := data)]
      ensures forall s :: Pinned(s) <==> old(Pinned(s))
      ensures latest == old(latest)[buf[b].sector := data]
    {
      buf := buf[b := buf[b].(data := data)];
      latest := latest[buf[b].sector := data];
    }

    /** log_write's mark (log.c): the buffer must not be recycled before a commit. */
    method Pin(b: nat)
      requires Valid() && b < NBUF && buf[b].valid
      modifies this`buf
      ensures Valid()
      ensures buf == old(buf)[b := old(buf)[b].(dirty := true)]
      ensures forall s :: Pinned(s) <==> old(Pinned(s)) || s == buf[b].sector
    {
      buf := buf[b := buf[b].(dirty := true)];
    }

    /** bwrite (bio.c): one sector write; the buffer is clean afterwards. */
    method Bwrite(b: nat) returns (ok: bool)
      requires Valid() && b < NBUF
      modifies this`buf, this`disk, this`trace
      ensures Valid()
      ensures ok == old(buf)[b].busy
      ensures ok ==> buf == old(buf)[b := old(buf)[b].(dirty := false)]
      ensures ok ==> disk == old(disk)[buf[b].sector := buf[b].data] && trace == old(trace) + [disk]
      ensures ok ==> forall s :: Pinned(s) <==> old(Pinned(s)) && s != buf[b].sector
      ensures !ok ==> buf == old(buf) && disk == old(disk) && trace == old(trace)
    {
      if !buf[b].busy {
        return false;
      }
      assert Coherent(buf[b], disk, latest);
      buf := buf[b := buf[b].(dirty := true)];
      ok := Iderw(b);
    }

    /** The pointer surgery of brelse. */
    method MoveFirst(b: nat)
      requires Ring(next, prev, order) && |order| == NBUF && b in order
      modifies this`next, this`prev, this`order
      ensures Ring(next, prev, order) && |order| == NBUF
      ensures forall k :: k in order <==> k in old(order)
      ensures exists p :: 0 <= p < NBUF && old(order)[p] == b && order == Front(old(order), p)
    {
      ghost var p :| 0 <= p < NBUF && order[p] == b;
      RingNeighbours(next, prev, order, p);
      prev := prev[next[b] := prev[b]];
      next := next[prev[b] := next[b]];
      Unlink(old(next), old(prev), order, next, prev, p);
      ghost var nx, pv, rest := next, prev, order[..p] + order[p + 1..];
      assert Around(rest)[0] == HEAD && next[Around(rest)[0]] == Around(rest)[1];
      var first := next[HEAD];
      next := next[b := first];
      prev := prev[b := HEAD];
      prev := prev[first := b];
      next := next[HEAD := b];
      InsertFront(nx, pv, rest, next, prev, b, first);
      order := Front(order, p);
      FrontKeeps(old(order), p);
    }

    /** brelse (bio.c): unlock and move to the front of the list.  A holder that changed
        the data has either pinned the buffer or written it. */
    method Brelse(b: nat) returns (ok: bool)
      requires Valid() && b < NBUF
      requires buf[b].valid && !buf[b].dirty ==> buf[b].data == disk[buf[b].sector]
      modifies this`buf, this`next, this`prev, this`order
      ensures Valid()
      ensures ok == old(buf)[b].busy
      ensures !ok ==> buf == old(buf) && order == old(order)
      ensures ok ==> buf == old(buf)[b := old(buf)[b].(busy := false)]
      ensures forall s :: Pinned(s) <==> old(Pinned(s))
      ensures ok ==> exists p :: 0 <= p < NBUF && old(order)[p] == b && order == Front(old(order), p)
      ensures ok ==> order[0] == b
    {
      if !buf[b].busy {
        return false;
      }
      MoveFirst(b);
      buf := buf[b := buf[b].(busy := false)];
      return true;
    }
  }

  // ---- the ring is in order of release ---------------------------------------------------------

  ghost function IndexOf(order: seq<nat>, b: nat): (p: nat)
    requires b in order
    ensures p < |order| && order[p] == b
  {
    if order[0] == b then 0 else 1 + IndexOf(order[1..], b)
  }

  /** The order of the ring after the buffers rel have been released one by one. */
  ghost function AfterReleases(order: seq<nat>, rel: seq<nat>): (r: seq<nat>)
    requires forall k :: 0 <= k < |rel| ==> rel[k] in order
    ensures |r| == |order| && forall b :: b in order ==> b in r
    decreases |rel|
  {
    if rel == [] then order
    else
      var was := AfterReleases(order, rel[..|rel| - 1]);
      var p := IndexOf(was, rel[|rel| - 1]);
      FrontHolds(was, p);
      Front(was, p)
  }

  lemma {:induction false} FrontHolds(order: seq<nat>, p: nat)
    requires p < |order|
    ensures |Front(order, p)| == |order| && forall b :: b in order ==> b in Front(order, p)
  {
    forall b | b in order ensures b in Front(order, p) {
      var i :| 0 <= i < |order| && order[i] == b;
      assert Front(order, p)[if i == p then 0 else if i < p then i + 1 else i] == b;
    }
  }

  ghost predicate Ahead(order: seq<nat>, x: nat, y: nat)
  {
    exists i, j :: 0 <= i < j < |order| && order[i] == x && order[j] == y
  }

  /** The number of the last release of b, from 1 on; 0 if there was none. */
  ghost function LastRelease(rel: seq<nat>, b: nat): (n: nat)
    ensures n <= |rel|
  {
    if rel == [] then 0 else if rel[|rel| - 1] == b then |rel| else LastRelease(rel[..|rel| - 1], b)
  }

  lemma {:induction false} FrontAhead(order: seq<nat>, p: nat, x: nat, y: nat)
    requires p < |order| && x in order && y in order && x != y && forall i, j :: 0 <= i < j < |order| ==> order[i] != order[j]
    ensures Ahead(Front(order, p), x, y) <==> order[p] == x || (order[p] != y && Ahead(order, x, y))
    ensures forall i, j :: 0 <= i < j < |order| ==> Front(order, p)[i] != Front(order, p)[j]
  {
    var r := Front(order, p);
    forall i | 0 <= i < |order| ensures r[i] == if i == 0 then order[p] else if i <= p then order[i - 1] else order[i] { }
    var a, b := IndexOf(order, x), IndexOf(order, y);
    var c := if a == p then 0 else if a < p then a + 1 else a;
    var d := if b == p then 0 else if b < p then b + 1 else b;
    assert r[c] == x && r[d] == y;
  }

  /** Who was released later stands ahead; those never released keep their order behind. */
  lemma {:induction false} OrderOfRelease(order: seq<nat>, rel: seq<nat>, x: nat, y: nat)
    requires (forall k :: 0 <= k < |rel| ==> rel[k] in order) && forall i, j :: 0 <= i < j < |order| ==> order[i] != order[j]
    requires x in order && y in order && x != y
    ensures Ahead(AfterReleases(order, rel), x, y)
            <==> LastRelease(rel, x) > LastRelease(rel, y) || (LastRelease(rel, x) == LastRelease(rel, y) == 0 && Ahead(order, x, y))
    ensures var r := AfterReleases(order, rel); forall i, j :: 0 <= i < j < |r| ==> r[i] != r[j]
    decreases |rel|
  {
    if rel != [] {
      var less := rel[..|rel| - 1];
      OrderOfRelease(order, less, x, y);
      var was := AfterReleases(order, less);
      FrontAhead(was, IndexOf(was, rel[|rel| - 1]), x, y);
    }
  }

  /** The location map once buffer b, which held x, is reused for sector s. */
  ghost function Moved(at: map<nat, nat>, x: Buf, b: nat, s: nat): (r: map<nat, nat>)
  {
    (if x.valid then at - {x.sector} else at)[s := b]
  }

  lemma CachedHolds(buf: seq<Buf>, at: map<nat, nat>, disk: Disk, latest: Disk, s: nat)
    requires Located(buf, at) && forall b :: 0 <= b < |buf| ==> Coherent(buf[b], disk, latest)
    ensures s in at ==> at[s] < |buf| && Holds(buf[at[s]], DISK, s)
  {
    if s in at {
      assert Coherent(buf[at[s]], disk, latest);
    }
  }

  lemma HitKeeps(was: seq<Buf>, now: seq<Buf>, at: map<nat, nat>, b: nat)
    requires Located(was, at) && b < |was| && now == was[b := was[b].(busy := true)]
    ensures Located(now, at)
    ensures forall t :: t in at ==> now[at[t]].dirty == was[at[t]].dirty
  {
  }

  lemma Relocated(was: seq<Buf>, now: seq<Buf>, at: map<nat, nat>, b: nat, s: nat)
    requires Located(was, at) && s !in at && b < |was| && Recyclable(was[b])
    requires |now| == |was| && now == was[b := now[b]] && now[b].valid && now[b].sector == s && !now[b].dirty
    ensures Located(now, Moved(at, was[b], b, s))
    ensures forall t :: t in at && was[at[t]].dirty ==> t in Moved(at, was[b], b, s) && Moved(at, was[b], b, s)[t] == at[t]
    ensures forall t :: t in Moved(at, was[b], b, s) && t != s ==> t in at && Moved(at, was[b], b, s)[t] == at[t] != b
  {
  }

  lemma FrontKeeps(order: seq<nat>, p: nat)
    requires p < |order|
    ensures |Front(order, p)| == |order|
    ensures forall k :: k in order <==> k in Front(order, p)
    ensures Front(order, p) == [order[p]] + (order[..p] + order[p + 1..])
  {
    var now := Front(order, p);
    assert order == order[..p] + [order[p]] + order[p + 1..];
  }

  lemma RingNeighbours(next: seq<nat>, prev: seq<nat>, order: seq<nat>, p: nat)
    requires Ring(next, prev, order) && p < |order|
    ensures order[p] != next[order[p]] <= NBUF && order[p] != prev[order[p]] <= NBUF
  {
    assert Around(order)[p + 1] == order[p];
    assert next[Around(order)[p + 1]] == Around(order)[p + 2] && prev[Around(order)[p + 1]] == Around(order)[p];
  }

  /** Linking b in after the head puts it first in the ring. */
  lemma InsertFront(nx0: seq<nat>, pv0: seq<nat>, was: seq<nat>, nx: seq<nat>, pv: seq<nat>, b: nat, first: nat)
    requires Ring(nx0, pv0, was) && b < NBUF && b !in was
    requires first == nx0[HEAD] == Around(was)[1] <= NBUF
    requires nx == nx0[b := first][HEAD := b] && pv == pv0[b := HEAD][first := b]
    ensures Ring(nx, pv, [b] + was)
  {
    var f0, f := Around(was), Around([b] + was);
    assert f0[0] == HEAD && f[0] == HEAD && f[1] == b && f[2] == f0[1];
    forall i | 0 <= i <= |was| + 1 ensures nx[f[i]] == f[i + 1] {
      if i >= 2 {
        assert f[i] == f0[i - 1] && f[i + 1] == f0[i];
        assert nx0[f0[i - 1]] == f0[i];
      } else {
        assert nx0[f0[0]] == f0[1];
      }
    }
    forall i | 1 <= i <= |was| + 2 ensures pv[f[i]] == f[i - 1] {
      if i >= 3 {
        assert f[i] == f0[i - 1] && f[i - 1] == f0[i - 2];
        assert pv0[f0[i - 1]] == f0[i - 2];
      }
    }
  }

  /** Unlinking the buffer at position p leaves the ring of the others. */
  lemma Unlink(nx0: seq<nat>, pv0: seq<nat>, was: seq<nat>, nx: seq<nat>, pv: seq<nat>, p: nat)
    requires Ring(nx0, pv0, was) && p < |was|
    requires pv0[was[p]] <= NBUF && nx0[was[p]] <= NBUF
    requires nx == nx0[pv0[was[p]] := nx0[was[p]]] && pv == pv0[nx0[was[p]] := pv0[was[p]]]
    ensures Ring(nx, pv, was[..p] + was[p + 1..])
  {
    var f0 := Around(was);
    var now := was[..p] + was[p + 1..];
    var f := Around(now);
    assert f0[p + 1] == was[p];
    assert nx0[f0[p + 1]] == f0[p + 2] && pv0[f0[p + 1]] == f0[p];
    forall i | 0 <= i <= |now| ensures nx[f[i]] == f[i + 1] {
      var a := if i <= p then i else i + 1;
      var c := if i + 1 <= p then i + 1 else i + 2;
      assert f[i] == f0[a] && f[i + 1] == f0[c];
      assert nx0[f0[a]] == f0[a + 1];
    }
    forall i | 1 <= i <= |now| + 1 ensures pv[f[i]] == f[i - 1] {
      var a := if i - 1 <= p then i - 1 else i;
      var c := if i <= p then i else i + 1;
      assert f[i - 1] == f0[a] && f[i] == f0[c];
      assert pv0[f0[c]] == f0[c - 1];
    }
  }
}
