/** The bounded byte buffer of pipe.c, with the lock held. */
module Pipe {
  import opened Blocks

  const PIPESIZE: nat := 512
  const UINT: nat := 0x1_0000_0000

  /** How a stay inside pipewrite or piperead ends: the call returns, fails, or sleeps. */
  datatype End = Returned | Failed | Asleep

  /** Where pipewrite's index stands when the lock is given up: everything is stored, or
      the pipe is full. */
  function WriteStop(used: nat, i: nat, n: nat): (j: nat)
    requires i <= n
    ensures i <= j <= n
    ensures used <= PIPESIZE ==> used + (j - i) <= PIPESIZE && (j < n ==> used + (j - i) == PIPESIZE)
  {
    var room := if used < PIPESIZE then PIPESIZE - used else 0;
    if n - i <= room then n else i + room
  }

  function WriteEnd(used: nat, i: nat, n: nat, readopen: bool, killed: bool): (e: End)
    requires i <= n
  {
    if WriteStop(used, i, n) == n then Returned else if !readopen || killed then Failed else Asleep
  }

  function ReadEnd(used: nat, writeopen: bool, killed: bool): (e: End)
  {
    if used > 0 || !writeopen then Returned else if killed then Failed else Asleep
  }

  function ReadCount(used: nat, n: nat): (k: nat)
    ensures k <= used && k <= n
  {
    if n < used then n else used
  }

  /** Counting modulo 2^32 is counting, and finds the same slot since PIPESIZE divides 2^32. */
  lemma Wraps(k: nat)
    ensures (k % UINT + 1) % UINT == (k + 1) % UINT
    ensures k % UINT % PIPESIZE == k % PIPESIZE
  {
    var q, r := k / UINT, k % UINT;
    assert k == q * UINT + r;
    SameSlot(q * 0x80_0000, r);
  }

  lemma SameSlot(q: nat, r: nat)
    ensures (q * PIPESIZE + r) % PIPESIZE == r % PIPESIZE
  {
    assert r == PIPESIZE * (r / PIPESIZE) + r % PIPESIZE;
    assert q * PIPESIZE + r == PIPESIZE * (q + r / PIPESIZE) + r % PIPESIZE;
  }

  /** The counters differ by d, modulo 2^32, exactly when the true counts do. */
  lemma Distance(r: nat, w: nat, d: nat)
    requires r <= w <= r + PIPESIZE && d <= PIPESIZE
    ensures w % UINT == (r % UINT + d) % UINT <==> w - r == d
  {
    var x := r % UINT;
    assert w % UINT == (x + (w - r)) % UINT;
    assert x + PIPESIZE < 2 * UINT;
  }

  /** Within a window of PIPESIZE counts the slots are distinct. */
  lemma SlotsDistinct(j: nat, k: nat)
    requires j < k < j + PIPESIZE
    ensures j % PIPESIZE != k % PIPESIZE
  {
  }

  lemma OneMore(got: seq<Byte>, rest: seq<Byte>, c: Byte, now: seq<Byte>)
    requires rest == [c] + now
    ensures got + rest == got + [c] + now
  {
  }

  class Buffer {
    const data: array<Byte>
    var nread: nat
    var nwrite: nat
    var readopen: bool
    var writeopen: bool
    ghost var stored: seq<Byte>       // every byte ever written, in order
    ghost var taken: nat              // how many of them have been read

    ghost predicate Valid()
      reads this, data
    {
      && data.Length == PIPESIZE
      && taken <= |stored| <= taken + PIPESIZE
      && nread == taken % UINT && nwrite == |stored| % UINT
      && forall k :: taken <= k < |stored| ==> data[k % PIPESIZE] == stored[k]
    }

    /** The bytes in the pipe, oldest first. */
    ghost function Queue(): (q: seq<Byte>)
      reads this, data
      requires Valid()
      ensures |q| <= PIPESIZE
    {
      stored[taken..]
    }

    /** pipealloc. */
    constructor ()
      ensures Valid() && fresh(data) && Queue() == [] && stored == [] && readopen && writeopen
    {
      data := new Byte[PIPESIZE];
      nread, nwrite, readopen, writeopen := 0, 0, true, true;
      stored, taken := [], 0;
    }

    /** p->data[p->nwrite++ % PIPESIZE] = c. */
    method Store(c: Byte)
      requires Valid() && |Queue()| < PIPESIZE
      modifies this`nwrite, this`stored, data
      ensures Valid() && stored == old(stored) + [c] && Queue() == old(Queue()) + [c]
    {
      ghost var w := |stored|;
      Wraps(w);
      forall k | taken <= k < w ensures k % PIPESIZE != w % PIPESIZE { SlotsDistinct(k, w); }
      data[nwrite % PIPESIZE] := c;
      nwrite := (nwrite + 1) % UINT;
      stored := stored + [c];
    }

    /** p->data[p->nread++ % PIPESIZE]. */
    method Fetch() returns (c: Byte)
      requires Valid() && Queue() != []
      modifies this`nread, this`taken
      ensures Valid() && old(Queue()) == [c] + Queue() && taken == old(taken) + 1
    {
      Wraps(taken);
      c := data[nread % PIPESIZE];
      nread := (nread + 1) % UINT;
      taken := taken + 1;
    }

    /** p->nwrite == p->nread + PIPESIZE. */
    method IsFull() returns (b: bool)
      requires Valid()
      ensures b <==> |Queue()| == PIPESIZE
    {
      Distance(taken, |stored|, PIPESIZE);
      b := nwrite == (nread + PIPESIZE) % UINT;
    }

    /** p->nread == p->nwrite. */
    method IsEmpty() returns (b: bool)
      requires Valid()
      ensures b <==> Queue() == []
    {
      Distance(taken, |stored|, 0);
      b := nread == nwrite;
    }

    /** pipewrite from the moment it holds the lock, with i bytes stored so far, until it
        gives the lock up.  Readers are woken unless the call fails. */
    method Write(addr: seq<Byte>, start: nat, killed: bool) returns (i: nat, end: End, woke: bool)
      requires Valid() && start <= |addr|
      modifies this`nwrite, this`stored, data
      ensures Valid() && i == WriteStop(|old(Queue())|, start, |addr|)
      ensures end == WriteEnd(|old(Queue())|, start, |addr|, readopen, killed) && woke == (end != Failed)
      ensures stored == old(stored) + addr[start..i] && Queue() == old(Queue()) + addr[start..i]
    {
      i := start;
      while i < |addr|
        invariant Valid() && start <= i <= |addr| && i <= start + PIPESIZE - |old(Queue())|
        invariant stored == old(stored) + addr[start..i] && Queue() == old(Queue()) + addr[start..i]
      {
        var full := IsFull();
        if full {
          if !readopen || killed {
            return i, Failed, false;
          }
          return i, Asleep, true;
        }
        Store(addr[i]);
        assert addr[start..i + 1] == addr[start..i] + [addr[i]];
        i := i + 1;
      }
      return i, Returned, true;
    }

    /** piperead from the moment it holds the lock until it gives it up.  Writers are woken
        when the call returns. */
    method Read(n: nat, killed: bool) returns (got: seq<Byte>, end: End, woke: bool)
      requires Valid()
      modifies this`nread, this`taken
      ensures Valid() && end == ReadEnd(|old(Queue())|, writeopen, killed) && woke == (end == Returned)
      ensures |got| == (if end == Returned then ReadCount(|old(Queue())|, n) else 0)
      ensures |got| <= n && (end == Returned ==> |got| == n || Queue() == [])
      ensures old(Queue()) == got + Queue() && taken == old(taken) + |got|
    {
      got := [];
      var empty := IsEmpty();
      if empty && writeopen {
        return [], if killed then Failed else Asleep, false;
      }
      var i := 0;
      ghost var q, before := Queue(), taken;
      while i < n
        invariant Valid() && i == |got| <= n && q == got + Queue() && taken == before + |got|
      {
        empty := IsEmpty();
        if empty {
          break;
        }
        ghost var rest := Queue();
        var c := Fetch();
        OneMore(got, rest, c, Queue());
        got := got + [c];
        i := i + 1;
      }
      return got, Returned, true;
    }

    /** pipeclose; the result says whether the pipe is freed. */
    method Close(writable: bool) returns (freed: bool)
      requires Valid()
      modifies this`readopen, this`writeopen
      ensures Valid() && Queue() == old(Queue())
      ensures readopen == (old(readopen) && writable) && writeopen == (old(writeopen) && !writable)
      ensures freed <==> !readopen && !writeopen
    {
      if writable {
        writeopen := false;
      } else {
        readopen := false;
      }
      freed := !readopen && !writeopen;
    }
  }
}
