/** Drawing the window stack of window.c into vesa_buffer, window by window, each program asked
    by a message. */
module Screen {
  import opened Wrappers
  import Messages
  import opened Windows

  const WIDTH: nat := 800
  const HEIGHT: nat := 600

  predicate OnScreen(r: Rect)
  {
    0 <= r.left <= r.right <= WIDTH && 0 <= r.top <= r.bottom <= HEIGHT
  }

  /** Where the pixel (x, y) lies in the buffer. */
  function Pixel(x: nat, y: nat): (i: nat)
    requires x < WIDTH && y < HEIGHT
    ensures i < WIDTH * HEIGHT
  {
    y * WIDTH + x
  }

  lemma PixelInjective(x: nat, y: nat, u: nat, v: nat)
    requires x < WIDTH && y < HEIGHT && u < WIDTH && v < HEIGHT
    ensures Pixel(x, y) == Pixel(u, v) ==> x == u && y == v
  {
  }

  function Area(r: Rect): (n: int)
  {
    (r.right - r.left) * (r.bottom - r.top)
  }

  /** Where the point (x, y) of a window lies in its own context. */
  function Source(r: Rect, x: int, y: int): (i: nat)
    requires OnScreen(r) && InRect(r, x, y)
    ensures i < Area(r)
  {
    var w := r.right - r.left;
    SourceBound(w, r.bottom - r.top, y - r.top, x - r.left);
    (y - r.top) * w + (x - r.left)
  }

  lemma SourceBound(w: nat, h: nat, row: nat, col: nat)
    requires row < h && col < w
    ensures 0 <= row * w + col < w * h
  {
    assert row * w + w == (row + 1) * w;
    assert (row + 1) * w <= h * w;
  }

  /** Pixels laid out row by row, cut into h rows of w. */
  function Picture(pixels: seq<nat>, w: nat, h: nat): (rows: seq<seq<nat>>)
    requires |pixels| >= h * w
    ensures |rows| == h && forall y :: 0 <= y < h ==> |rows[y]| == w
    decreases h
  {
    if h == 0 then [] else
    OneRowLess(|pixels|, w, h);
    [pixels[..w]] + Picture(pixels[w..], w, h - 1)
  }

  lemma OneRowLess(n: nat, w: nat, h: nat)
    requires h > 0 && n >= h * w
    ensures n >= w && n - w >= (h - 1) * w
  {
    assert h * w == (h - 1) * w + w;
  }

  lemma {:induction false} PictureAt(pixels: seq<nat>, w: nat, h: nat, x: nat, y: nat)
    requires |pixels| >= h * w && x < w && y < h
    ensures 0 <= y * w + x < |pixels| && Picture(pixels, w, h)[y][x] == pixels[y * w + x]
    decreases y
  {
    SourceBound(w, h, y, x);
    OneRowLess(|pixels|, w, h);
    if y > 0 {
      PictureAt(pixels[w..], w, h - 1, x, y - 1);
      assert y * w + x == w + ((y - 1) * w + x);
    }
  }

  /** The picture on the screen, and the one a window has for its rectangle. */
  function OnDisplay(buffer: seq<nat>): (rows: seq<seq<nat>>)
    requires |buffer| == WIDTH * HEIGHT
    ensures |rows| == HEIGHT && forall y :: 0 <= y < HEIGHT ==> |rows[y]| == WIDTH
  {
    Picture(buffer, WIDTH, HEIGHT)
  }

  function OfWindow(r: Rect, context: seq<nat>): (rows: seq<seq<nat>>)
    requires OnScreen(r) && |context| >= Area(r)
    ensures |rows| == r.bottom - r.top && forall y :: 0 <= y < |rows| ==> |rows[y]| == r.right - r.left
  {
    Commutes(r.right - r.left, r.bottom - r.top);
    Picture(context, r.right - r.left, r.bottom - r.top)
  }

  /** As many pixels as the rectangle has points will do. */
  lemma {:induction false} AreaIsExact(r: Rect, context: seq<nat>)
    requires OnScreen(r) && |context| == (r.bottom - r.top) * (r.right - r.left)
    ensures |context| == Area(r)
  {
    Commutes(r.bottom - r.top, r.right - r.left);
  }

  lemma Commutes(a: int, b: int)
    ensures a * b == b * a
  {
  }

  lemma {:induction false} SourceInPicture(r: Rect, context: seq<nat>, x: int, y: int)
    requires OnScreen(r) && InRect(r, x, y) && |context| >= Area(r)
    ensures OfWindow(r, context)[y - r.top][x - r.left] == context[Source(r, x, y)]
  {
    Commutes(r.right - r.left, r.bottom - r.top);
    PictureAt(context, r.right - r.left, r.bottom - r.top, x - r.left, y - r.top);
  }

  lemma {:induction false} PixelInPicture(buffer: seq<nat>, x: nat, y: nat)
    requires |buffer| == WIDTH * HEIGHT && x < WIDTH && y < HEIGHT
    ensures OnDisplay(buffer)[y][x] == buffer[Pixel(x, y)]
  {
    PictureAt(buffer, WIDTH, HEIGHT, x, y);
  }

  /** The window's picture has been put at its rectangle, and the rest is as it was. */
  ghost predicate PutOn(was: seq<nat>, now: seq<nat>, r: Rect, context: seq<nat>)
    requires |was| == |now| == WIDTH * HEIGHT && OnScreen(r) && |context| >= Area(r)
  {
    forall x, y :: 0 <= x < WIDTH && 0 <= y < HEIGHT ==>
      OnDisplay(now)[y][x] == if InRect(r, x, y) then OfWindow(r, context)[y - r.top][x - r.left] else OnDisplay(was)[y][x]
  }

  lemma {:induction false} PixelsPutOn(was: seq<nat>, now: seq<nat>, r: Rect, context: seq<nat>)
    requires |was| == |now| == WIDTH * HEIGHT && OnScreen(r) && |context| >= Area(r)
    requires forall u: nat, v: nat {:trigger Pixel(u, v)} :: u < WIDTH && v < HEIGHT ==>
               now[Pixel(u, v)] == if InRect(r, u, v) then context[Source(r, u, v)] else was[Pixel(u, v)]
    ensures PutOn(was, now, r, context)
  {
    forall x, y | 0 <= x < WIDTH && 0 <= y < HEIGHT
      ensures OnDisplay(now)[y][x] == if InRect(r, x, y) then OfWindow(r, context)[y - r.top][x - r.left] else OnDisplay(was)[y][x]
    {
      PixelInPicture(was, x, y);
      PixelInPicture(now, x, y);
      if InRect(r, x, y) { SourceInPicture(r, context, x, y); }
    }
  }

  /** The pixels of rectangle r that come before (x, y), row by row. */
  predicate Before(r: Rect, x: int, y: int, u: int, v: int)
  {
    InRect(r, u, v) && (v < y || (v == y && u < x))
  }

  class Framebuffer {
    const buffer: array<nat>      // vesa_buffer
    const screen: array<nat>      // vesa_array

    ghost predicate Valid()
    {
      buffer.Length == screen.Length == WIDTH * HEIGHT && buffer != screen
    }

    constructor ()
      ensures Valid() && fresh(buffer) && fresh(screen)
    {
      buffer := new nat[WIDTH * HEIGHT];
      screen := new nat[WIDTH * HEIGHT];
    }

    /** memmove(vesa_array, vesa_buffer). */
    method Show()
      requires Valid()
      modifies screen
      ensures screen[..] == buffer[..]
    {
      forall i | 0 <= i < screen.Length {
        screen[i] := buffer[i];
      }
    }

    /** The loops have copied the pixels of r before (x, y) from the context. */
    ghost predicate Drawn(r: Rect, context: seq<nat>, was: seq<nat>, x: int, y: int)
      requires Valid() && |was| == WIDTH * HEIGHT && OnScreen(r) && |context| >= Area(r)
      reads buffer
    {
      forall u: nat, v: nat {:trigger Pixel(u, v)} :: u < WIDTH && v < HEIGHT ==>
        buffer[Pixel(u, v)] == if Before(r, x, y, u, v) then context[Source(r, u, v)] else was[Pixel(u, v)]
    }

    /** drawWindow: the window's picture comes to stand at its rectangle, and nothing else changes. */
    method DrawWindow(r: Rect, context: seq<nat>)
      requires Valid() && OnScreen(r) && |context| >= Area(r)
      modifies buffer
      ensures forall u: nat, v: nat {:trigger Pixel(u, v)} :: u < WIDTH && v < HEIGHT ==>
                buffer[Pixel(u, v)] == if InRect(r, u, v) then context[Source(r, u, v)] else old(buffer[Pixel(u, v)])
      ensures PutOn(old(buffer[..]), buffer[..], r, context)
    {
      ghost var was := buffer[..];
      var j := r.top;
      while j < r.bottom
        invariant r.top <= j <= r.bottom && Drawn(r, context, was, r.left, j)
      {
        DrawRow(r, context, was, j);
        j := j + 1;
      }
      PixelsPutOn(was, buffer[..], r, context);
    }

    method DrawRow(r: Rect, context: seq<nat>, ghost was: seq<nat>, j: int)
      requires Valid() && OnScreen(r) && |context| >= Area(r) && |was| == WIDTH * HEIGHT && r.top <= j < r.bottom
      requires Drawn(r, context, was, r.left, j)
      modifies buffer
      ensures Drawn(r, context, was, r.left, j + 1)
    {
      var i := r.left;
      while i < r.right
        invariant r.left <= i <= r.right && Drawn(r, context, was, i, j)
      {
        DrawPixel(r, context, was, i, j);
        i := i + 1;
      }
    }

    method DrawPixel(r: Rect, context: seq<nat>, ghost was: seq<nat>, i: nat, j: nat)
      requires Valid() && OnScreen(r) && |context| >= Area(r) && |was| == WIDTH * HEIGHT && InRect(r, i, j)
      requires Drawn(r, context, was, i, j)
      modifies buffer
      ensures Drawn(r, context, was, i + 1, j)
    {
      ghost var prev := buffer[..];
      buffer[Pixel(i, j)] := context[Source(r, i, j)];
      forall u: nat, v: nat | u < WIDTH && v < HEIGHT
        ensures buffer[Pixel(u, v)] == if Before(r, i + 1, j, u, v) then context[Source(r, u, v)] else was[Pixel(u, v)]
      {
        PixelInjective(u, v, i, j);
        assert prev[Pixel(u, v)] == if Before(r, i, j, u, v) then context[Source(r, u, v)] else was[Pixel(u, v)];
      }
    }
  }

  /** Every window fits on the screen and has pixels for its whole rectangle. */
  ghost predicate Drawable(windows: seq<Window>, order: seq<nat>, contexts: seq<seq<nat>>)
  {
    |contexts| == |windows| &&
    forall k :: 0 <= k < |order| ==> order[k] < |windows| && OnScreen(windows[order[k]].rect) && |contexts[order[k]]| >= Area(windows[order[k]].rect)
  }

  /** The colour the topmost of the first n windows has at the point, or the old colour. */
  ghost function Seen(windows: seq<Window>, order: seq<nat>, n: nat, contexts: seq<seq<nat>>, u: nat, v: nat, was: nat): (c: nat)
    requires Drawable(windows, order, contexts) && n <= |order| && u < WIDTH && v < HEIGHT
  {
    var top := Topmost(windows, order, n, u, v);
    if top.None? then was
    else
      var k :| 0 <= k < n && order[k] == top.value;
      contexts[top.value][Source(windows[order[k]].rect, u, v)]
  }

  /** The pixels are those of the first n windows, over what was there. */
  ghost predicate Shows(f: Framebuffer, windows: seq<Window>, order: seq<nat>, n: nat, contexts: seq<seq<nat>>, was: seq<nat>)
    requires f.Valid() && Drawable(windows, order, contexts) && n <= |order| && |was| == WIDTH * HEIGHT
    reads f.buffer
  {
    forall u: nat, v: nat {:trigger Pixel(u, v)} :: u < WIDTH && v < HEIGHT ==>
      f.buffer[Pixel(u, v)] == Seen(windows, order, n, contexts, u, v, was[Pixel(u, v)])
  }

  /** The next window is drawn over them. */
  method DrawNext(windows: seq<Window>, ghost order: seq<nat>, f: Framebuffer, contexts: seq<seq<nat>>, w: nat, ghost k: nat, ghost was: seq<nat>)
    requires f.Valid() && Drawable(windows, order, contexts) && |was| == WIDTH * HEIGHT
    requires k < |order| && order[k] == w && Shows(f, windows, order, k, contexts, was)
    modifies f.buffer
    ensures Shows(f, windows, order, k + 1, contexts, was)
  {
    ghost var prev := f.buffer[..];
    f.DrawWindow(windows[w].rect, contexts[w]);
    forall u: nat, v: nat | u < WIDTH && v < HEIGHT
      ensures f.buffer[Pixel(u, v)] == Seen(windows, order, k + 1, contexts, u, v, was[Pixel(u, v)])
    {
      assert prev[Pixel(u, v)] == Seen(windows, order, k, contexts, u, v, was[Pixel(u, v)]);
    }
  }

  // ---- the requests -------------------------------------------------------------------------------

  const UPDATE := Messages.Item(Messages.MSG_UPDATE, Messages.Mouse(0, 0))

  /** The processes asked to redraw, among (pid, message) pairs. */
  ghost function Updates(log: seq<(int, Messages.Item)>): (r: seq<int>)
  {
    if log == [] then []
    else Updates(log[..|log| - 1]) + (if log[|log| - 1].1.kind == Messages.MSG_UPDATE then [log[|log| - 1].0] else [])
  }

  lemma UpdatesAppend(log: seq<(int, Messages.Item)>, pid: int, x: Messages.Item)
    ensures Updates(log + [(pid, x)]) == if x.kind == Messages.MSG_UPDATE then Updates(log) + [pid] else Updates(log)
  {
    assert (log + [(pid, x)])[..|log|] == log;
  }

  /** From (a, r) to (b, s) one request for pid was accepted, or refused or lost. */
  predicate Answered(a: seq<int>, r: seq<int>, b: seq<int>, s: seq<int>, pid: int, ok: bool)
  {
    if ok then b == a + [pid] && s == r else b == a && s == r + [pid]
  }

  /** A message that asks for something else. */
  predicate Other(letter: (int, Messages.Item))
  {
    letter.0 != -1 && letter.1.kind != Messages.MSG_UNUSED && letter.1.kind != Messages.MSG_UPDATE
  }

  predicate NoneAsks(letters: seq<(int, Messages.Item)>)
  {
    forall k :: 0 <= k < |letters| ==> Other(letters[k])
  }

  ghost predicate NoUpdate(items: seq<Messages.Item>)
  {
    forall k :: 0 <= k < |items| ==> items[k].kind != Messages.MSG_UPDATE
  }

  /** No redraw is pending for anyone. */
  ghost predicate Calm(mail: map<int, seq<Messages.Item>>)
  {
    forall p :: NoUpdate(Messages.Pending(mail, p))
  }

  /** More than n slots are unused, and more than n entries of the table. */
  ghost predicate Roomy(m: Messages.Slab, n: nat)
    reads m
  {
    m.FreeSlots() > n && m.FreeEntries() > n
  }

  /** Other messages arrive. */
  method PostAll(m: Messages.Slab, letters: seq<(int, Messages.Item)>)
    requires m.Valid() && Calm(m.s.mail) && NoneAsks(letters)
    modifies m
    ensures m.Valid() && Calm(m.s.mail)
    ensures Updates(m.accepted) == Updates(old(m.accepted)) && Updates(m.refused) == Updates(old(m.refused))
    ensures letters == [] ==> m.s == old(m.s)
    ensures m.FreeSlots() + |letters| >= old(m.FreeSlots()) && m.FreeEntries() + |letters| >= old(m.FreeEntries())
    ensures letters == [] ==> m.FreeSlots() == old(m.FreeSlots()) && m.FreeEntries() == old(m.FreeEntries())
  {
    for k := 0 to |letters|
      invariant m.Valid() && Calm(m.s.mail)
      invariant Updates(m.accepted) == Updates(old(m.accepted)) && Updates(m.refused) == Updates(old(m.refused))
      invariant m.FreeSlots() + k >= old(m.FreeSlots()) && m.FreeEntries() + k >= old(m.FreeEntries())
      invariant letters == [] ==> m.s == old(m.s) && m.FreeSlots() == old(m.FreeSlots()) && m.FreeEntries() == old(m.FreeEntries())
    {
      PostOther(m, letters[k].0, letters[k].1);
    }
  }

  method PostOther(m: Messages.Slab, pid: int, x: Messages.Item)
    requires m.Valid() && Calm(m.s.mail) && Other((pid, x))
    modifies m
    ensures m.Valid() && Calm(m.s.mail)
    ensures Updates(m.accepted) == Updates(old(m.accepted)) && Updates(m.refused) == Updates(old(m.refused))
    ensures m.FreeSlots() + 1 >= old(m.FreeSlots()) && m.FreeEntries() + 1 >= old(m.FreeEntries())
  {
    UpdatesAppend(m.accepted, pid, x);
    UpdatesAppend(m.refused, pid, x);
    CalmThen(m.s.mail, pid, x);
    m.Post(pid, x);
  }

  lemma {:induction false} CalmThen(mail: map<int, seq<Messages.Item>>, pid: int, x: Messages.Item)
    requires Calm(mail) && x.kind != Messages.MSG_UPDATE
    ensures Calm(mail[pid := Messages.Pending(mail, pid) + [x]])
  {
    var now := mail[pid := Messages.Pending(mail, pid) + [x]];
    forall p ensures NoUpdate(Messages.Pending(now, p)) { assert NoUpdate(Messages.Pending(mail, p)); }
  }

  /** Of the messages q all but r have been fetched: up to and with the first request to redraw if
      `asked`, and no such request otherwise. */
  ghost predicate Served(q: seq<Messages.Item>, r: seq<Messages.Item>, asked: bool)
  {
    && |r| <= |q| && q[|q| - |r|..] == r
    && if asked then |r| < |q| && q[|q| - |r| - 1].kind == Messages.MSG_UPDATE && NoUpdate(q[..|q| - |r| - 1])
       else NoUpdate(q[..|q| - |r|])
  }

  lemma {:induction false} ServedNext(q: seq<Messages.Item>, r: seq<Messages.Item>, x: Messages.Item, rest: seq<Messages.Item>)
    requires Served(q, r, false) && r == [x] + rest
    ensures Served(q, rest, x.kind == Messages.MSG_UPDATE)
  {
    var n := |q| - |r|;
    assert q[n..][0] == x && q[n + 1..] == q[n..][1..];
    assert q[..n + 1] == q[..n] + [x];
  }

  /** A program's event loop, up to its next request to redraw or until nothing is pending. */
  method Serve(m: Messages.Slab, pid: int) returns (asked: bool)
    requires m.Valid() && pid != -1
    modifies m
    ensures m.Valid() && m.accepted == old(m.accepted) && m.refused == old(m.refused)
    ensures forall p :: p != pid ==> Messages.Pending(m.s.mail, p) == Messages.Pending(old(m.s.mail), p)
    ensures var q, r := Messages.Pending(old(m.s.mail), pid), Messages.Pending(m.s.mail, pid);
            && Served(q, r, asked) && (asked || r == []) && m.FreeSlots() == old(m.FreeSlots()) + |q| - |r|
            && m.FreeEntries() == old(m.FreeEntries()) + if q != [] && r == [] then 1 else 0
  {
    asked := false;
    ghost var q, r := Messages.Pending(m.s.mail, pid), Messages.Pending(m.s.mail, pid);
    while !asked
      invariant m.Valid() && m.accepted == old(m.accepted) && m.refused == old(m.refused)
      invariant forall p :: p != pid ==> Messages.Pending(m.s.mail, p) == Messages.Pending(old(m.s.mail), p)
      invariant r == Messages.Pending(m.s.mail, pid) && Served(q, r, asked)
      invariant m.FreeSlots() == old(m.FreeSlots()) + |q| - |r|
      invariant m.FreeEntries() == old(m.FreeEntries()) + if q != [] && r == [] then 1 else 0
      decreases |r| + if asked then 0 else 1
    {
      ghost var was := r;
      var x := m.GetMsg(pid);
      if x.None? {
        return;
      }
      asked := x.value.kind == Messages.MSG_UPDATE;
      r := Messages.Pending(m.s.mail, pid);
      ServedNext(q, was, x.value, r);
    }
  }

  lemma {:induction false} ServedLast(q: seq<Messages.Item>, r: seq<Messages.Item>, asked: bool)
    requires NoUpdate(q) && Served(q + [UPDATE], r, asked) && (asked || r == [])
    ensures asked && r == []
  {
    var p := q + [UPDATE];
    assert p[|q|].kind == Messages.MSG_UPDATE;
    assert forall j :: 0 <= j < |q| ==> p[j].kind != Messages.MSG_UPDATE;
  }

  /** The mail before a request, after it and after the program's loop; `got` if the request joined
      the program's messages. */
  lemma {:induction false} AskServed(was: map<int, seq<Messages.Item>>, mid: map<int, seq<Messages.Item>>, now: map<int, seq<Messages.Item>>, pid: int, got: bool, asked: bool)
    requires Calm(was) && mid == if got then was[pid := Messages.Pending(was, pid) + [UPDATE]] else was
    requires forall p :: p != pid ==> Messages.Pending(now, p) == Messages.Pending(mid, p)
    requires Served(Messages.Pending(mid, pid), Messages.Pending(now, pid), asked) && (asked || Messages.Pending(now, pid) == [])
    ensures (asked <==> got) && Messages.Pending(now, pid) == [] && Calm(now)
    ensures got ==> Messages.Pending(mid, pid) != []
  {
    assert NoUpdate(Messages.Pending(was, pid));
    if got {
      ServedLast(Messages.Pending(was, pid), Messages.Pending(now, pid), asked);
    }
    forall p ensures NoUpdate(Messages.Pending(now, p)) { assert NoUpdate(Messages.Pending(was, p)); }
  }

  /** A message for the process would find room. */
  ghost predicate RoomFor(m: Messages.Slab, pid: int)
    reads m
  {
    !m.SlabFull() && !m.TableFull(pid)
  }

  ghost predicate HasRoom(m: Messages.Slab)
    reads m
  {
    forall p :: RoomFor(m, p)
  }

  lemma {:induction false} RoomForAll(m: Messages.Slab)
    requires m.Valid() && m.FreeSlots() > 0 && m.FreeEntries() > 0
    ensures HasRoom(m)
  {
    forall p ensures RoomFor(m, p) { m.Room(p); }
  }

  /** One request to redraw, and the program's loop up to it.  It arrives exactly if there was room,
      and then there is room again, no less than before. */
  method Ask(m: Messages.Slab, pid: int) returns (asked: bool)
    requires m.Valid() && Calm(m.s.mail) && pid != -1
    modifies m
    ensures m.Valid() && Calm(m.s.mail)
    ensures asked <==> old(RoomFor(m, pid))
    ensures Answered(Updates(old(m.accepted)), Updates(old(m.refused)), Updates(m.accepted), Updates(m.refused), pid, asked)
    ensures asked ==> HasRoom(m) && m.FreeSlots() >= old(m.FreeSlots()) && m.FreeEntries() >= old(m.FreeEntries())
    ensures old(Roomy(m, 0)) ==> asked
  {
    m.Room(pid);
    ghost var was := m.s.mail;
    ghost var got := Request(m, pid);
    ghost var mid := m.s.mail;
    asked := Serve(m, pid);
    AskServed(was, mid, m.s.mail, pid, got, asked);
    if asked { RoomForAll(m); }
  }

  /** createUpdateMsg. */
  method Request(m: Messages.Slab, pid: int) returns (ghost got: bool)
    requires m.Valid() && pid != -1
    modifies m
    ensures m.Valid() && (got <==> old(RoomFor(m, pid)))
    ensures got ==> m.FreeSlots() + 1 >= old(m.FreeSlots()) && m.FreeEntries() + 1 >= old(m.FreeEntries())
    ensures m.s.mail == if got then old(m.s.mail)[pid := Messages.Pending(old(m.s.mail), pid) + [UPDATE]] else old(m.s.mail)
    ensures Answered(Updates(old(m.accepted)), Updates(old(m.refused)), Updates(m.accepted), Updates(m.refused), pid, got)
  {
    UpdatesAppend(m.accepted, pid, UPDATE);
    UpdatesAppend(m.refused, pid, UPDATE);
    got := RoomFor(m, pid);
    ghost var a, r := m.accepted, m.refused;
    m.Post(pid, UPDATE);
    assert m.accepted == if got then a + [(pid, UPDATE)] else a;
    assert m.refused == if got then r else r + [(pid, UPDATE)];
  }

  /** The processes of the first n windows. */
  ghost function Asked(windows: seq<Window>, order: seq<nat>, n: nat): (r: seq<int>)
    requires n <= |order| && forall k :: 0 <= k < |order| ==> order[k] < |windows|
  {
    if n == 0 then [] else Asked(windows, order, n - 1) + [windows[order[n - 1]].pid]
  }

  lemma {:induction false} AskedNext(a: seq<int>, windows: seq<Window>, order: seq<nat>, n: nat)
    requires n < |order| && forall k :: 0 <= k < |order| ==> order[k] < |windows|
    ensures a + Asked(windows, order, n) + [windows[order[n]].pid] == a + Asked(windows, order, n + 1)
  {
  }

  /** One window's turn, once other messages have arrived: its program is asked, and draws. */
  method RedrawNext(windows: seq<Window>, ghost order: seq<nat>, m: Messages.Slab, f: Framebuffer, contexts: seq<seq<nat>>, letters: seq<(int, Messages.Item)>, w: nat, ghost k: nat, ghost was: seq<nat>)
      returns (asked: bool)
    requires m.Valid() && f.Valid() && Drawable(windows, order, contexts) && |was| == WIDTH * HEIGHT
    requires k < |order| && order[k] == w && Shows(f, windows, order, k, contexts, was) && windows[w].pid != -1
    requires Calm(m.s.mail) && NoneAsks(letters)
    modifies m, f.buffer
    ensures m.Valid() && Calm(m.s.mail)
    ensures if asked then Shows(f, windows, order, k + 1, contexts, was) && HasRoom(m) else f.buffer[..] == old(f.buffer[..])
    ensures letters == [] ==> (asked <==> old(RoomFor(m, windows[w].pid)))
    ensures old(Roomy(m, |letters|)) ==> asked
    ensures asked ==> m.FreeSlots() + |letters| >= old(m.FreeSlots()) && m.FreeEntries() + |letters| >= old(m.FreeEntries())
    ensures Answered(Updates(old(m.accepted)), Updates(old(m.refused)), Updates(m.accepted), Updates(m.refused), windows[w].pid, asked)
  {
    ghost var pid := windows[w].pid;
    m.Room(pid);
    PostAll(m, letters);
    m.Room(pid);
    asked := Ask(m, windows[w].pid);
    if asked {
      DrawNext(windows, order, f, contexts, w, k, was);
    }
  }

  /** How many messages arrive before request k and later ones. */
  function Arriving(others: seq<seq<(int, Messages.Item)>>, k: nat): (n: nat)
    decreases |others| - k
  {
    if k >= |others| then 0 else |others[k]| + Arriving(others, k + 1)
  }

  /** A redraw of the whole stack: each window's program is asked in turn, from the bottom, and asks
      the next; others[k] is what arrives before request k.  The screen shows at every pixel what
      getWindowByPoint would find there exactly if no request was refused or lost; otherwise it stays
      as it was, with only the windows below in the buffer.  With nothing else arriving the first
      request decides; with more room than arrivals no request fails. */
  method Redraw(d: Desktop, m: Messages.Slab, f: Framebuffer, contexts: seq<seq<nat>>, others: seq<seq<(int, Messages.Item)>>)
      returns (shown: bool, ghost n: nat)
    requires d.Valid() && m.Valid() && f.Valid() && Drawable(d.windows, d.order, contexts) && d.order != []
    requires Calm(m.s.mail) && |others| == |d.order| && forall k :: 0 <= k < |others| ==> NoneAsks(others[k])
    requires forall k :: 0 <= k < |d.order| ==> d.windows[d.order[k]].pid != -1
    modifies m, f.buffer, f.screen
    ensures m.Valid() && n <= |d.order| && Shows(f, d.windows, d.order, n, contexts, old(f.buffer[..])) && (shown <==> n == |d.order|)
    ensures f.screen[..] == if shown then f.buffer[..] else old(f.screen[..])
    ensures Updates(m.accepted) == Updates(old(m.accepted)) + Asked(d.windows, d.order, n)
    ensures shown ==> Updates(m.refused) == Updates(old(m.refused))
    ensures !shown ==> Updates(m.refused) == Updates(old(m.refused)) + [d.windows[d.order[n]].pid]
    ensures (forall k :: 0 <= k < |others| ==> others[k] == []) ==>
              (shown <==> old(RoomFor(m, d.windows[d.order[0]].pid)))
    ensures old(Roomy(m, Arriving(others, 0))) ==> shown
  {
    ghost var x := Start(f.buffer[..], Updates(m.accepted), Updates(m.refused), RoomFor(m, d.windows[d.order[0]].pid), Roomy(m, Arriving(others, 0)));
    shown, n := DrawAll(d.windows, d.head, d.order, m, f, contexts, others, x);
    if shown {
      f.Show();
    }
  }

  /** What a redraw starts from: the pixels, who has been asked and refused, whether the first request
      would find room, and whether there is more room than messages arrive. */
  datatype Start = Start(was: seq<nat>, asked: seq<int>, refused: seq<int>, room: bool, ample: bool)

  /** The first n windows are drawn. */
  ghost predicate DrawnTo(x: Start, windows: seq<Window>, order: seq<nat>, m: Messages.Slab, f: Framebuffer, contexts: seq<seq<nat>>, others: seq<seq<(int, Messages.Item)>>, n: nat)
    requires f.Valid() && Drawable(windows, order, contexts) && |x.was| == WIDTH * HEIGHT && |others| == |order| > 0
    reads m, f.buffer
  {
    && m.Valid() && Calm(m.s.mail) && n <= |order| && Shows(f, windows, order, n, contexts, x.was)
    && Updates(m.accepted) == x.asked + Asked(windows, order, n) && Updates(m.refused) == x.refused
    && (if n == 0 then x.room == RoomFor(m, windows[order[0]].pid) else HasRoom(m) && (others[0] == [] ==> x.room))
    && (x.ample ==> Roomy(m, Arriving(others, n)))
  }

  /** Window n's program was refused. */
  ghost predicate StoppedAt(x: Start, windows: seq<Window>, order: seq<nat>, m: Messages.Slab, f: Framebuffer, contexts: seq<seq<nat>>, others: seq<seq<(int, Messages.Item)>>, n: nat)
    requires f.Valid() && Drawable(windows, order, contexts) && |x.was| == WIDTH * HEIGHT && |others| == |order|
    reads m, f.buffer
  {
    && m.Valid() && n < |order| && Shows(f, windows, order, n, contexts, x.was)
    && Updates(m.accepted) == x.asked + Asked(windows, order, n) && Updates(m.refused) == x.refused + [windows[order[n]].pid]
    && (n > 0 && others[0] == [] ==> x.room) && (others[n] == [] ==> n == 0 && !x.room) && !x.ample
  }

  /** One turn. */
  method DrawTurn(windows: seq<Window>, ghost order: seq<nat>, m: Messages.Slab, f: Framebuffer, contexts: seq<seq<nat>>, others: seq<seq<(int, Messages.Item)>>, w: nat, n: nat, ghost x: Start)
      returns (asked: bool)
    requires f.Valid() && Drawable(windows, order, contexts) && |x.was| == WIDTH * HEIGHT && |others| == |order|
    requires n < |order| && order[n] == w && windows[w].pid != -1 && NoneAsks(others[n]) && DrawnTo(x, windows, order, m, f, contexts, others, n)
    modifies m, f.buffer
    ensures if asked then DrawnTo(x, windows, order, m, f, contexts, others, n + 1) else StoppedAt(x, windows, order, m, f, contexts, others, n)
  {
    AskedNext(x.asked, windows, order, n);
    asked := RedrawNext(windows, order, m, f, contexts, others[n], w, n, x.was);
  }

  /** The requests and the drawing, without the last copy to the screen. */
  method DrawAll(windows: seq<Window>, head: Option<nat>, ghost order: seq<nat>, m: Messages.Slab, f: Framebuffer, contexts: seq<seq<nat>>, others: seq<seq<(int, Messages.Item)>>, ghost x: Start)
      returns (shown: bool, n: nat)
    requires f.Valid() && Drawable(windows, order, contexts) && |x.was| == WIDTH * HEIGHT && |others| == |order| > 0
    requires head == At(order, 0) && forall k :: 0 <= k < |order| ==> LinkedAt(windows, order, k)
    requires forall k :: 0 <= k < |order| ==> windows[order[k]].pid != -1 && NoneAsks(others[k])
    requires DrawnTo(x, windows, order, m, f, contexts, others, 0)
    modifies m, f.buffer
    ensures if shown then n == |order| && DrawnTo(x, windows, order, m, f, contexts, others, n) else StoppedAt(x, windows, order, m, f, contexts, others, n)
  {
    var p := head;
    n := 0;
    while p.Some?
      invariant n <= |order| && p == At(order, n) && DrawnTo(x, windows, order, m, f, contexts, others, n)
      decreases |order| - n
    {
      assert LinkedAt(windows, order, n);
      var asked := DrawTurn(windows, order, m, f, contexts, others, p.value, n, x);
      if !asked {
        return false, n;
      }
      p, n := windows[p.value].next, n + 1;
    }
    shown := true;
  }

  /** The window a click finds after a redraw that went through, and the pixel of its context that the
      screen shows. */
  method DrawAndClick(d: Desktop, m: Messages.Slab, f: Framebuffer, contexts: seq<seq<nat>>, others: seq<seq<(int, Messages.Item)>>, x: nat, y: nat)
      returns (shown: bool, r: Option<nat>, colour: nat)
    requires d.Valid() && m.Valid() && f.Valid() && Drawable(d.windows, d.order, contexts) && d.order != [] && x < WIDTH && y < HEIGHT
    requires Calm(m.s.mail) && |others| == |d.order| && forall k :: 0 <= k < |others| ==> NoneAsks(others[k])
    requires forall k :: 0 <= k < |d.order| ==> d.windows[d.order[k]].pid != -1
    modifies m, f.buffer, f.screen
    ensures colour == f.screen[Pixel(x, y)] && (shown <==> Updates(m.refused) == Updates(old(m.refused)))
    ensures r.None? <==> forall k :: 0 <= k < |d.order| ==> !InRect(d.windows[d.order[k]].rect, x, y)
    ensures r.Some? ==> r.value in d.order && r.value < |contexts| && InRect(d.windows[r.value].rect, x, y) && OnScreen(d.windows[r.value].rect)
    ensures r.Some? ==> |contexts[r.value]| >= Area(d.windows[r.value].rect)
    ensures shown && r.Some? ==> colour == contexts[r.value][Source(d.windows[r.value].rect, x, y)]
  {
    ghost var n;
    shown, n := Redraw(d, m, f, contexts, others);
    r := d.GetWindowByPoint(x, y);
    colour := f.screen[Pixel(x, y)];
    assert shown ==> colour == f.buffer[..][Pixel(x, y)];
  }

  /** After a redraw that went through, a click on a covered pixel goes to the window whose picture
      the screen shows there. */
  method DrawnIsClicked(d: Desktop, m: Messages.Slab, f: Framebuffer, contexts: seq<seq<nat>>, others: seq<seq<(int, Messages.Item)>>, x: nat, y: nat)
      returns (shown: bool, r: Option<nat>, colour: nat)
    requires d.Valid() && m.Valid() && f.Valid() && Drawable(d.windows, d.order, contexts) && d.order != [] && x < WIDTH && y < HEIGHT
    requires Calm(m.s.mail) && |others| == |d.order| && forall k :: 0 <= k < |others| ==> NoneAsks(others[k])
    requires forall k :: 0 <= k < |d.order| ==> d.windows[d.order[k]].pid != -1
    modifies m, f.buffer, f.screen
    ensures colour == OnDisplay(f.screen[..])[y][x] && (shown <==> Updates(m.refused) == Updates(old(m.refused)))
    ensures r.None? <==> forall k :: 0 <= k < |d.order| ==> !InRect(d.windows[d.order[k]].rect, x, y)
    ensures r.Some? ==> r.value in d.order && r.value < |contexts| && InRect(d.windows[r.value].rect, x, y) && OnScreen(d.windows[r.value].rect)
    ensures r.Some? ==> |contexts[r.value]| >= Area(d.windows[r.value].rect)
    ensures shown && r.Some? ==> var q := d.windows[r.value].rect; colour == OfWindow(q, contexts[r.value])[y - q.top][x - q.left]
  {
    shown, r, colour := DrawAndClick(d, m, f, contexts, others, x, y);
    PixelInPicture(f.screen[..], x, y);
    if r.Some? {
      SourceInPicture(d.windows[r.value].rect, contexts[r.value], x, y);
    }
  }
}
