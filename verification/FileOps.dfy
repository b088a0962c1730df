/** fileread and filewrite (file.c) on an inode: the offset, and filewrite's splitting of a
    long write into transactions. */
module FileOps {
  import opened Blocks
  import opened FileIndex
  import opened Volumes
  import opened Allocation
  import opened FileSystem
  import opened LogSpec

  /** The largest piece filewrite hands to one writei. */
  const CHUNK: nat := (LOGSIZE - 1 - 1 - 2) / 2 * 512

  datatype Outcome = Returned(value: int) | Halted

  /** Two writes, the second starting where the first ends, are one write. */
  lemma WrittenCompose(c: seq<Byte>, off: nat, x: seq<Byte>, y: seq<Byte>)
    requires off <= |c|
    ensures off + |x| <= |Written(c, off, x)|
    ensures Written(Written(c, off, x), off + |x|, y) == Written(c, off, x + y)
  {
  }

  /** One chunk more, src[i..m]: the file b, with src[..i] written, becomes a. */
  lemma {:induction false} NextChunk(src: seq<Byte>, i: nat, m: nat, c: seq<Byte>, o: nat, b: seq<Byte>, a: seq<Byte>)
    requires i <= m <= |src| && (i == 0 ==> b == c) && (i > 0 ==> o <= |c| && b == Written(c, o, src[..i]))
    requires o + i <= |b| && a == Written(b, o + i, src[i..m])
    ensures o <= |c| && a == Written(c, o, src[..m])
  {
    if i > 0 {
      WrittenCompose(c, o, src[..i], src[i..m]);
      assert src[..m] == src[..i] + src[i..m];
    } else {
      assert src[..m] == src[i..m];
    }
  }

  /** File i of g is file i of f with src[..k] written at off, and the other files are the same. */
  ghost predicate Holding(f: Fs, g: Fs, i: nat, off: nat, src: seq<Byte>, k: nat)
  {
    && |g.inodes| == |f.inodes| && i < |f.inodes| && k <= |src|
    && (forall j :: 0 <= j < |f.inodes| ==> f.inodes[j].size <= MAXBLOCKS * BSIZE && g.inodes[j].size <= MAXBLOCKS * BSIZE)
    && (k == 0 ==> Contents(g, i) == Contents(f, i))
    && (k > 0 ==> off <= |Contents(f, i)| && Contents(g, i) == Written(Contents(f, i), off, src[..k]))
    && forall j :: 0 <= j < |f.inodes| && j != i ==> Contents(g, j) == Contents(f, j)
  }

  /** One chunk more. */
  lemma {:induction false} HoldingNext(f: Fs, g: Fs, h: Fs, i: nat, off: nat, src: seq<Byte>, k: nat, m: nat)
    requires Holding(f, g, i, off, src, k) && k < m <= |src| && Wrote(g, h, i, off + k, src[k..m])
    ensures Holding(f, h, i, off, src, m)
  {
    NextChunk(src, k, m, Contents(f, i), off, Contents(g, i), Contents(h, i));
  }

  const MOST: nat := MAXFILE * BSIZE     // writei's limit

  /** The bytes of the leading chunks that end within writei's limit. */
  function Accepted(o: nat, n: nat): (k: nat)
  {
    if o + n <= MOST then n else if o > MOST then 0 else (MOST - o) / CHUNK * CHUNK
  }

  /** All of them, or as many chunks of 6656 bytes as there is room for. */
  lemma {:induction false} AcceptedIs(o: nat, n: nat)
    ensures Accepted(o, n) == n <==> n == 0 || o + n <= MAXFILE * 512
    ensures Accepted(o, n) < n ==> Accepted(o, n) % 6656 == 0 && o + Accepted(o, n) + 6656 > MAXFILE * 512
    ensures o <= MAXFILE * 512 ==> o + Accepted(o, n) <= MAXFILE * 512
    ensures Accepted(0, 71681) == 66560
  {
    if o <= MOST { ChunksIn(MOST - o, 0); }
  }

  /** The blocks they need. */
  function FileNeeds(f: Fs, i: nat, o: nat, n: nat): (k: nat)
    requires i < |f.inodes|
  {
    if o > MOST then 0 else
    AcceptedFits(o, n);
    EndInFile(o, Accepted(o, n), MAXFILE);
    WriteNeeds(f, i, o / BSIZE, EndBlock(o, Accepted(o, n)))
  }

  lemma AcceptedFits(o: nat, n: nat)
    requires o <= MOST
    ensures o + Accepted(o, n) <= MOST && Accepted(o, n) <= n
  {
  }

  /** The chunks up to byte k have taken the blocks they need, u before and v now. */
  ghost predicate Counted(f: Fs, u: nat, g: Fs, v: nat, i: nat, o: nat, k: nat)
  {
    i < |f.inodes| &&
    if k == 0 then g == f && v == u
    else EndBlock(o, k) <= MAXFILE && FilledFor(f, g, i, o / BSIZE, EndBlock(o, k)) && v == u + WriteNeeds(f, i, o / BSIZE, EndBlock(o, k))
  }

  /** The blocks of [o, o + k) and of [o + k, o + m). */
  lemma {:induction false} EndsMeet(o: nat, k: nat, m: nat)
    requires k < m && o + m <= MOST
    ensures o / BSIZE <= (o + k) / BSIZE <= EndBlock(o, k) <= EndBlock(o, m) == EndBlock(o + k, m - k) <= MAXFILE
  {
  }

  /** The blocks [b, e) of the bytes [o + k, o + m) add up with those before. */
  lemma {:induction false} CountedNeeds(f: Fs, u: nat, g: Fs, v: nat, i: nat, o: nat, k: nat, m: nat, b: nat, e: nat)
    requires k < m && b == (o + k) / BSIZE && e == EndBlock(o + k, m - k)
    ensures Counted(f, u, g, v, i, o, k) && o + m <= MOST ==>
              e == EndBlock(o, m) <= MAXFILE && i < |g.inodes| && v + WriteNeeds(g, i, b, e) == u + WriteNeeds(f, i, o / BSIZE, e)
  {
    if Counted(f, u, g, v, i, o, k) && o + m <= MOST {
      EndsMeet(o, k, m);
      if k > 0 {
        NeedsAdd(f, g, i, o / BSIZE, EndBlock(o, k), b, e);
      }
    }
  }

  lemma {:induction false} CountedNext(f: Fs, u: nat, g: Fs, v: nat, h: Fs, w: nat, i: nat, o: nat, k: nat, m: nat, b: nat, e: nat)
    requires Counted(f, u, g, v, i, o, k) && k < m && o + m <= MOST && b == (o + k) / BSIZE && e == EndBlock(o + k, m - k) <= MAXFILE
    requires i < |g.inodes| && FilledFor(g, h, i, b, e) && w == v + WriteNeeds(g, i, b, e)
    ensures Counted(f, u, h, w, i, o, m)
  {
    EndsMeet(o, k, m);
    CountedNeeds(f, u, g, v, i, o, k, m, b, e);
    if k > 0 {
      FilledForTrans(f, g, h, i, o / BSIZE, EndBlock(o, k), b, e);
    }
  }

  /** More bytes need no fewer blocks. */
  lemma {:induction false} NeedsGrow(f: Fs, i: nat, o: nat, k: nat, m: nat)
    requires i < |f.inodes| && k <= m && o + m <= MOST
    ensures EndBlock(o, k) <= EndBlock(o, m) <= MAXFILE
    ensures WriteNeeds(f, i, o / BSIZE, EndBlock(o, k)) <= WriteNeeds(f, i, o / BSIZE, EndBlock(o, m))
  {
    EndInFile(o, m, MAXFILE);
    DataMore(f, i, o / BSIZE, EndBlock(o, k), EndBlock(o, m));
  }

  /** After k bytes the size is as far. */
  lemma {:induction false} SizeSoFar(f: Fs, g: Fs, i: nat, o: nat, src: seq<Byte>, k: nat)
    requires Holding(f, g, i, o, src, k)
    ensures if k == 0 then g.inodes[i].size == f.inodes[i].size else o <= f.inodes[i].size && o + k <= g.inodes[i].size
  {
    assert |Contents(f, i)| == f.inodes[i].size && |Contents(g, i)| == g.inodes[i].size;
  }

  /** Chunk c of n bytes is [i, m). */
  predicate IsChunk(c: nat, i: nat, m: nat, n: nat)
  {
    i == c * CHUNK && i < m <= n && m == (if n - i > CHUNK then i + CHUNK else n)
  }

  lemma {:induction false} ChunksIn(x: nat, c: nat)
    ensures x / CHUNK * CHUNK <= x
    ensures c * CHUNK + CHUNK <= x ==> c * CHUNK + CHUNK <= x / CHUNK * CHUNK
    ensures c * CHUNK <= x < c * CHUNK + CHUNK ==> c * CHUNK == x / CHUNK * CHUNK
  {
    var q := x / CHUNK;
    assert q * CHUNK <= x < q * CHUNK + CHUNK;
    assert c * CHUNK + CHUNK <= x ==> c + 1 <= q;
    assert c * CHUNK <= x < c * CHUNK + CHUNK ==> c == q;
  }

  /** A chunk ends within the limit exactly if it is one of those Accepted counts. */
  lemma {:induction false} ChunkEnds(o: nat, n: nat, c: nat, i: nat, m: nat)
    requires IsChunk(c, i, m, n)
    ensures m < n ==> m == (c + 1) * CHUNK
    ensures o + m <= MOST ==> m <= Accepted(o, n)
    ensures o + m > MOST && (i > 0 ==> o + i <= MOST) ==> o + n > MOST && (if o > MOST then i == 0 else i == Accepted(o, n))
  {
    if o <= MOST {
      ChunksIn(MOST - o, c);
    }
  }

  /** All chunks within the limit are written. */
  lemma {:induction false} AllCounted(f: Fs, u: nat, g: Fs, v: nat, i: nat, o: nat, k: nat, n: nat)
    requires Counted(f, u, g, v, i, o, k) && if o > MOST then k == 0 else k == Accepted(o, n)
    ensures v == u + FileNeeds(f, i, o, n)
  {
  }

  /** More blocks than are free for one of the chunks within the limit. */
  lemma {:induction false} TooFew(f: Fs, i: nat, o: nat, m: nat, n: nat)
    requires i < |f.inodes| && o + m <= MOST && m <= Accepted(o, n)
    ensures EndBlock(o, m) <= MAXFILE && WriteNeeds(f, i, o / BSIZE, EndBlock(o, m)) <= FileNeeds(f, i, o, n)
  {
    AcceptedFits(o, n);
    NeedsGrow(f, i, o, m, Accepted(o, n));
  }

  /** filewrite stops after i bytes: the offset is behind the end, or the next chunk is over the limit. */
  predicate Over(f: Fs, i: nat, o: nat, n: nat, k: nat)
    requires i < |f.inodes|
  {
    (k == 0 && o > f.inodes[i].size) || (o + n > MOST && if o > MOST then k == 0 else k == Accepted(o, n))
  }

  /** The chunks within the limit need more blocks than are free. */
  predicate Lacking(f: Fs, i: nat, o: nat, n: nat, u: nat, size: nat)
  {
    i < |f.inodes| && o <= f.inodes[i].size && size < u + FileNeeds(f, i, o, n)
  }

  /** Where the loop ends without a panic there were enough blocks. */
  lemma {:induction false} NotLacking(f: Fs, g: Fs, i: nat, o: nat, src: seq<Byte>, k: nat, n: nat, u: nat, used: set<nat>, size: nat)
    requires SoFar(f, u, g, |used|, i, o, src, k)
    requires n > 0 && (k == n || Over(f, i, o, n, k)) && forall b :: b in used ==> b < size
    ensures !Lacking(f, i, o, n, u, size)
    ensures k == n ==> InBounds(f.inodes[i].size, o, n)
    ensures k == if o <= f.inodes[i].size then Accepted(o, n) else 0
  {
    SizeSoFar(f, g, i, o, src, k);
    if o <= f.inodes[i].size {
      AllCounted(f, u, g, |used|, i, o, k, n);
      WithinSize(used, size);
    }
  }

  /** The bytes src[..k] written at o, and the blocks taken for them. */
  ghost predicate SoFar(f: Fs, u: nat, g: Fs, v: nat, i: nat, o: nat, src: seq<Byte>, k: nat)
  {
    Holding(f, g, i, o, src, k) && Counted(f, u, g, v, i, o, k) && (k > 0 ==> o + k <= MOST)
  }

  /** One writei: the bytes, and the blocks taken for [b, e). */
  ghost predicate Landed(g: Fs, v: nat, h: Fs, w: nat, i: nat, at: nat, piece: seq<Byte>, b: nat, e: nat)
  {
    Wrote(g, h, i, at, piece) && e <= MAXFILE && FilledFor(g, h, i, b, e) && w == v + WriteNeeds(g, i, b, e)
  }

  /** One chunk more. */
  lemma {:induction false} SoFarNext(f: Fs, u: nat, g: Fs, v: nat, h: Fs, w: nat, i: nat, o: nat, src: seq<Byte>, k: nat, m: nat, at: nat, b: nat, e: nat)
    requires k < m <= |src| && at == o + k && b == at / BSIZE && e == EndBlock(at, m - k)
    ensures SoFar(f, u, g, v, i, o, src, k) && at + (m - k) <= MOST && Landed(g, v, h, w, i, at, src[k..m], b, e) ==> SoFar(f, u, h, w, i, o, src, m)
  {
    if SoFar(f, u, g, v, i, o, src, k) && at + (m - k) <= MOST && Landed(g, v, h, w, i, at, src[k..m], b, e) {
      HoldingNext(f, g, h, i, o, src, k, m);
      CountedNext(f, u, g, v, h, w, i, o, k, m, b, e);
    }
  }

  class File {
    const vol: Volume
    const inum: nat
    const readable: bool
    const writable: bool
    var off: Word

    constructor (v: Volume, i: nat, r: bool, w: bool)
      ensures vol == v && inum == i && readable == r && writable == w && off == 0
    {
      vol, inum, readable, writable, off := v, i, r, w, 0;
    }

    ghost predicate Valid()
      reads this, vol
    {
      vol.Valid() && inum < |vol.inodes|
    }

    ghost function Bytes(): (c: seq<Byte>)
      requires Valid()
      reads this, vol
    {
      Contents(vol.Now(), inum)
    }

    /** fileread (file.c): the next bytes of the file, and the offset moves past them. */
    method FileRead(n: Word) returns (r: Outcome, dst: seq<Byte>)
      requires Valid()
      modifies this`off, vol
      ensures Valid()
      ensures readable && r.Returned? && r.value >= 0 ==>
                && old(off) <= |old(Bytes())| && r.value == |dst|
                && dst == Slice(old(Bytes()), old(off), n) && off == old(off) + |dst|
      ensures !(readable && r.Returned? && r.value >= 0) ==> off == old(off)
      ensures Extends(old(vol.Now()), vol.Now())
      ensures r.Returned? && r.value < 0 <==> !readable || old(off) > |old(Bytes())| || old(off) + n >= UINT
    {
      dst := [];
      if !readable {
        return Returned(-1), dst;
      }
      var io;
      io, dst := vol.Readi(inum, off, n);
      match io
      case Failed => return Returned(-1), dst;
      case Panicked => return Halted, dst;
      case Done(k) =>
        off := off + k;
        return Returned(k), dst;
    }

    /** filewrite has written src[..k] since the offset was o, the volume f and u blocks in use. */
    ghost predicate Progress(src: seq<Byte>, k: nat, o: nat, f: Fs, u: nat)
      reads this, vol
    {
      Valid() && off == o + k && SoFar(f, u, vol.Now(), |vol.used|, inum, o, src, k)
    }

    /** writei at the offset, into the blocks [b, e). */
    method Put(piece: seq<Byte>, ghost b: nat, ghost e: nat) returns (r: Io)
      requires Valid() && 0 < |piece| <= CHUNK && b == off / BSIZE && e == EndBlock(off, |piece|)
      modifies vol
      ensures Valid() && |vol.inodes| == |old(vol.inodes)|
      ensures r.Failed? <==> !InBounds(old(vol.inodes)[inum].size, off, |piece|)
      ensures r.Failed? ==> vol.Whole() == old(vol.Whole())
      ensures r.Panicked? ==> e <= MAXFILE && vol.sb.size < |old(vol.used)| + WriteNeeds(old(vol.Now()), inum, b, e)
      ensures r.Panicked? ==> forall c :: 0 <= c < vol.sb.size ==> c in vol.used
      ensures r.Done? ==> r.count == |piece| && off + |piece| < UINT && e <= MAXFILE
      ensures r.Done? ==> Landed(old(vol.Now()), |old(vol.used)|, vol.Now(), |vol.used|, inum, off, piece, b, e)
    {
      r := vol.Writei(inum, off, piece);
    }

    /** The same for src[k..m]. */
    method PutChunk(src: seq<Byte>, k: nat, m: nat, ghost o: nat, ghost f: Fs, ghost u: nat, ghost b: nat, ghost e: nat) returns (r: Io)
      requires Progress(src, k, o, f, u) && k < m <= |src| && m - k <= CHUNK && b == off / BSIZE && e == EndBlock(off, m - k)
      modifies vol
      ensures Valid() && |vol.inodes| == |f.inodes|
      ensures r.Failed? <==> !InBounds(old(vol.inodes)[inum].size, off, m - k)
      ensures r.Failed? ==> vol.Whole() == old(vol.Whole())
      ensures r.Panicked? ==> e == EndBlock(o, m) <= MAXFILE && vol.sb.size < u + WriteNeeds(f, inum, o / BSIZE, e)
      ensures r.Panicked? ==> forall c :: 0 <= c < vol.sb.size ==> c in vol.used
      ensures r.Done? ==> r.count == m - k && off + (m - k) < UINT && SoFar(f, u, vol.Now(), |vol.used|, inum, o, src, m)
    {
      ghost var g, v := vol.Now(), |vol.used|;
      CountedNeeds(f, u, g, v, inum, o, k, m, b, e);
      r := Put(src[k..m], b, e);
      SoFarNext(f, u, g, v, vol.Now(), |vol.used|, inum, o, src, k, m, off, b, e);
    }

    /** One transaction of filewrite. */
    method WriteChunk(src: seq<Byte>, k: nat, m: nat, ghost o: nat, ghost f: Fs, ghost u: nat) returns (r: Io)
      requires Progress(src, k, o, f, u) && k < m <= |src| && m - k <= CHUNK
      modifies this`off, vol
      ensures Valid() && |vol.inodes| == |f.inodes|
      ensures r.Failed? <==> (k == 0 && o > f.inodes[inum].size) || o + m > MOST
      ensures r.Failed? ==> Progress(src, k, o, f, u)
      ensures r.Done? ==> r.count == m - k && Progress(src, m, o, f, u)
      ensures r.Panicked? ==> EndBlock(o, m) <= MAXFILE && vol.sb.size < u + WriteNeeds(f, inum, o / BSIZE, EndBlock(o, m)) && forall b :: 0 <= b < vol.sb.size ==> b in vol.used
    {
      SizeSoFar(f, vol.Now(), inum, o, src, k);
      r := PutChunk(src, k, m, o, f, u, off / BSIZE, EndBlock(off, m - k));
      if r.Done? && r.count > 0 {
        off := off + r.count;
      }
    }

    /** filewrite (file.c).  However it is split, the file ends up with one write of a
        prefix src[..k] at the old offset; it is the whole of src exactly when the offset is
        inside the file and the end within writei's limit.  It halts exactly when fewer blocks are
        free than the chunks within the limit need. */
    method FileWrite(src: seq<Byte>, n: int) returns (r: Outcome, ghost k: nat)
      requires Valid() && n <= |src|
      modifies this`off, vol
      ensures Valid() && |vol.inodes| == |old(vol.inodes)|
      ensures r.Halted? <==> writable && n > 0 && Lacking(old(vol.Now()), inum, old(off), n, |old(vol.used)|, vol.sb.size)
      ensures r.Halted? ==> forall b :: 0 <= b < vol.sb.size ==> b in vol.used
      ensures r.Returned? ==>
                && k <= |src| && off == old(off) + k
                && (k > 0 ==> old(off) <= |old(Bytes())| && Bytes() == Written(old(Bytes()), old(off), src[..k]))
                && (k == 0 ==> Bytes() == old(Bytes()))
                && forall j :: 0 <= j < |vol.inodes| && j != inum ==> Contents(vol.Now(), j) == Contents(old(vol.Now()), j)
      ensures r.Returned? ==> r.value == (if writable && k == n then n else -1)
      ensures r.Returned? && writable && n > 0 ==> k == if old(off) <= |old(Bytes())| then Accepted(old(off), n) else 0
      ensures r.Returned? ==> (r.value == n >= 0 <==>
                writable && (n == 0 || (n > 0 && old(off) <= |old(Bytes())| && old(off) + n <= MOST)))
    {
      k := 0;
      if !writable {
        return Returned(-1), k;
      }
      ghost var o, f, u := off, vol.Now(), |vol.used|;
      var i, halted := WriteChunks(src, n, o, f, u);
      k := i;
      if halted {
        return Halted, k;
      }
      return Returned(if i == n then n else -1), k;
    }

    /** One turn of filewrite's loop, for chunk c. */
    method Turn(src: seq<Byte>, n: nat, ghost c: nat, i: nat, m: nat, ghost o: nat, ghost f: Fs, ghost u: nat) returns (r: Io)
      requires Progress(src, i, o, f, u) && IsChunk(c, i, m, n) && n <= |src|
      modifies this`off, vol
      ensures Valid() && |vol.inodes| == |f.inodes|
      ensures r.Failed? ==> Progress(src, i, o, f, u) && Over(f, inum, o, n, i) && i < n
      ensures r.Panicked? ==> Lacking(f, inum, o, n, u, vol.sb.size) && forall b :: 0 <= b < vol.sb.size ==> b in vol.used
      ensures r.Done? ==> r.count == m - i && Progress(src, m, o, f, u) && (m < n ==> m == (c + 1) * CHUNK)
    {
      ChunkEnds(o, n, c, i, m);
      SizeSoFar(f, vol.Now(), inum, o, src, i);
      r := WriteChunk(src, i, m, o, f, u);
      if r.Panicked? {
        TooFew(f, inum, o, m, n);
      }
    }

    /** The loop of filewrite: it stops at n, at a failing writei, or at a panic. */
    method WriteChunks(src: seq<Byte>, n: int, ghost o: nat, ghost f: Fs, ghost u: nat) returns (i: nat, halted: bool)
      requires Progress(src, 0, o, f, u) && n <= |src|
      modifies this`off, vol
      ensures Valid() && |vol.inodes| == |old(vol.inodes)|
      ensures halted <==> n > 0 && Lacking(f, inum, o, n, u, vol.sb.size)
      ensures halted ==> forall b :: 0 <= b < vol.sb.size ==> b in vol.used
      ensures !halted ==> Progress(src, i, o, f, u)
      ensures !halted && n >= 0 ==> (i == n <==> n == 0 || InBounds(f.inodes[inum].size, o, n))
      ensures !halted && n > 0 ==> i == if o <= f.inodes[inum].size then Accepted(o, n) else 0
    {
      i, halted := 0, false;
      ghost var c := 0;
      while i < n
        invariant 0 <= i <= |src| && (n >= 0 ==> i <= n) && (i < n ==> i == c * CHUNK)
        invariant Progress(src, i, o, f, u)
      {
        var m := if n - i > CHUNK then i + CHUNK else n;
        var w := Turn(src, n, c, i, m, o, f, u);
        if w.Panicked? {
          return i, true;
        }
        if w.Failed? {
          NotLacking(f, vol.Now(), inum, o, src, i, n, u, vol.used, vol.sb.size);
          return;
        }
        i, c := m, c + 1;
      }
      if n > 0 {
        NotLacking(f, vol.Now(), inum, o, src, i, n, u, vol.used, vol.sb.size);
      }
    }
  }
}
