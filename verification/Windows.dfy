/** The window stack of window.c: a doubly linked list threaded through window_array, bottom
    window first, and the off-screen buffer the windows are drawn into. */
module Windows {
  import opened Sequences
  import opened Wrappers

  const MAXWINDOW: nat := 20

  datatype Rect = Rect(left: int, top: int, right: int, bottom: int)

  datatype Window = Window(id: int, pid: int, rect: Rect, prior: Option<nat>, next: Option<nat>)

  /** What releaseWindow comes to. */
  datatype Release = NotFound | Released(told: int) | NullHead

  /** inClientRect. */
  predicate InRect(r: Rect, x: int, y: int)
  {
    r.left <= x < r.right && r.top <= y < r.bottom
  }

  // ---- the list ----------------------------------------------------------------------------

  function At(order: seq<nat>, k: int): (w: Option<nat>)
  {
    if 0 <= k < |order| then Some(order[k]) else None
  }

  predicate LinkedAt(a: seq<Window>, order: seq<nat>, k: nat)
    requires k < |order|
  {
    order[k] < |a| && a[order[k]].prior == At(order, k - 1) && a[order[k]].next == At(order, k + 1)
  }

  /** The links run through `order`, from the bottom window to the top one. */
  ghost predicate Linked(a: seq<Window>, order: seq<nat>, head: Option<nat>, tail: Option<nat>)
  {
    && head == At(order, 0) && tail == At(order, |order| - 1)
    && (forall k :: 0 <= k < |order| ==> order[k] < |a|)
    && (forall k :: 0 <= k < |order| ==> LinkedAt(a, order, k))
    && (forall k, l :: 0 <= k < l < |order| ==> order[k] != order[l])
  }

  /** Exactly the listed windows are in use, each with an id of its own. */
  ghost predicate InUse(a: seq<Window>, order: seq<nat>, nextId: int)
  {
    && nextId >= 1
    && (forall w :: 0 <= w < |a| ==> (a[w].id > 0 <==> w in order) && a[w].id < nextId)
    && (forall v, w :: 0 <= v < w < |a| && a[v].id == a[w].id ==> a[v].id <= 0)
  }

  /** The two links around position k once it is taken out. */
  function Bypassed(a: seq<Window>, prior: Option<nat>, next: Option<nat>): (r: seq<Window>)
    requires (prior.Some? ==> prior.value < |a|) && (next.Some? ==> next.value < |a|)
    ensures |r| == |a|
  {
    var b := if prior.Some? then a[prior.value := a[prior.value].(next := next)] else a;
    if next.Some? then b[next.value := b[next.value].(prior := prior)] else b
  }

  lemma BypassedAt(a: seq<Window>, order: seq<nat>, head: Option<nat>, tail: Option<nat>, k: nat, i: nat)
    requires Linked(a, order, head, tail) && k < |order| && i < |order| - 1
    ensures LinkedAt(Bypassed(a, At(order, k - 1), At(order, k + 1)), Cut(order, k), i)
  {
    var b, c := Bypassed(a, At(order, k - 1), At(order, k + 1)), Cut(order, k);
    var o := if i < k then i else i + 1;
    assert LinkedAt(a, order, o) && c[i] == order[o];
    assert b[c[i]].next == (if o + 1 == k then At(order, k + 1) else a[order[o]].next);
    assert b[c[i]].prior == (if o == k + 1 then At(order, k - 1) else a[order[o]].prior);
  }

  lemma UnlinkKeeps(a: seq<Window>, order: seq<nat>, head: Option<nat>, tail: Option<nat>, k: nat)
    requires Linked(a, order, head, tail) && k < |order|
    ensures var prior, next := At(order, k - 1), At(order, k + 1);
            && (prior.Some? ==> prior.value < |a|) && (next.Some? ==> next.value < |a|)
            && Linked(Bypassed(a, prior, next), Cut(order, k),
                      if prior.Some? then head else next, if next.Some? then tail else prior)
            && forall w :: 0 <= w < |a| ==> SameWindow(a[w], Bypassed(a, prior, next)[w])
  {
    var b, c := Bypassed(a, At(order, k - 1), At(order, k + 1)), Cut(order, k);
    forall i | 0 <= i < |c| ensures LinkedAt(b, c, i) {
      BypassedAt(a, order, head, tail, k, i);
    }
  }

  /** All but the links. */
  predicate SameWindow(x: Window, y: Window)
  {
    y.id == x.id && y.pid == x.pid && y.rect == x.rect
  }

  /** Window p linked on at the top. */
  function Stacked(a: seq<Window>, p: nat, tail: Option<nat>): (r: seq<Window>)
    requires p < |a| && (tail.Some? ==> tail.value < |a|)
    ensures |r| == |a|
  {
    var b := if tail.Some? then a[tail.value := a[tail.value].(next := Some(p))] else a;
    b[p := b[p].(prior := tail, next := None)]
  }

  lemma StackKeeps(a: seq<Window>, order: seq<nat>, head: Option<nat>, tail: Option<nat>, p: nat)
    requires Linked(a, order, head, tail) && p < |a| && p !in order
    ensures tail.Some? ==> tail.value < |a|
    ensures Linked(Stacked(a, p, tail), order + [p], if head.None? then Some(p) else head, Some(p))
    ensures forall w :: 0 <= w < |a| ==> SameWindow(a[w], Stacked(a, p, tail)[w])
  {
    if order != [] { assert LinkedAt(a, order, |order| - 1); }
    var b, c := Stacked(a, p, tail), order + [p];
    forall i | 0 <= i < |c| ensures LinkedAt(b, c, i) {
      if i < |order| { assert LinkedAt(a, order, i); }
    }
  }

  // ---- what is on top ------------------------------------------------------------------------

  /** The topmost of the first n windows over the point. */
  ghost function Topmost(a: seq<Window>, order: seq<nat>, n: nat, x: int, y: int): (r: Option<nat>)
    requires n <= |order| && forall k :: 0 <= k < |order| ==> order[k] < |a|
    ensures r.Some? ==> r.value in order[..n] && r.value < |a| && InRect(a[r.value].rect, x, y)
    ensures r.Some? ==> exists k :: 0 <= k < n && order[k] == r.value && forall l :: k < l < n ==> !InRect(a[order[l]].rect, x, y)
    ensures r.None? ==> forall k :: 0 <= k < n ==> !InRect(a[order[k]].rect, x, y)
  {
    if n == 0 then None
    else if InRect(a[order[n - 1]].rect, x, y) then Some(order[n - 1])
    else Topmost(a, order, n - 1, x, y)
  }

  class Desktop {
    var windows: seq<Window>
    var head: Option<nat>
    var tail: Option<nat>
    var activated: Option<nat>
    var nextId: int
    ghost var order: seq<nat>         // bottom first

    ghost predicate Valid()
      reads this
    {
      |windows| == MAXWINDOW && Linked(windows, order, head, tail) && InUse(windows, order, nextId)
    }

    /** windowlistinit. */
    constructor ()
      ensures Valid() && order == [] && activated == None
    {
      windows := seq(MAXWINDOW, k => Window(0, 0, Rect(0, 0, 0, 0), None, None));
      head, tail, activated, nextId, order := None, None, None, 1, [];
    }

    /** The links of p are taken out of the list. */
    method Unlink(p: nat, ghost k: nat)
      requires |windows| == MAXWINDOW && Linked(windows, order, head, tail) && k < |order| && p == order[k]
      modifies this`windows, this`head, this`tail, this`order
      ensures |windows| == MAXWINDOW && Linked(windows, order, head, tail) && order == Cut(old(order), k)
      ensures forall w :: 0 <= w < MAXWINDOW ==> SameWindow(old(windows)[w], windows[w])
    {
      assert LinkedAt(windows, order, k);
      UnlinkKeeps(windows, order, head, tail, k);
      var prior, next := windows[p].prior, windows[p].next;
      if prior.Some? {
        windows := windows[prior.value := windows[prior.value].(next := next)];
      } else {
        head := next;
      }
      if next.Some? {
        windows := windows[next.value := windows[next.value].(prior := prior)];
      } else {
        tail := prior;
      }
      order := Cut(order, k);
    }

    /** p becomes the top of the list. */
    method Stack(p: nat)
      requires |windows| == MAXWINDOW && Linked(windows, order, head, tail) && p < MAXWINDOW && p !in order
      modifies this`windows, this`head, this`tail, this`order
      ensures |windows| == MAXWINDOW && Linked(windows, order, head, tail) && order == old(order) + [p]
      ensures forall w :: 0 <= w < MAXWINDOW ==> SameWindow(old(windows)[w], windows[w])
    {
      StackKeeps(windows, order, head, tail, p);
      if head.None? {
        head := Some(p);
      }
      if tail.Some? {
        windows := windows[tail.value := windows[tail.value].(next := Some(p))];
      }
      windows := windows[p := windows[p].(prior := tail)];
      tail := Some(p);
      windows := windows[p := windows[p].(next := None)];
      order := order + [p];
      assert windows == Stacked(old(windows), p, old(tail));
    }

    /** allocWindow: a free entry becomes the top window; it fails exactly when all are in use. */
    method AllocWindow(rect: Rect, pid: int) returns (r: Option<nat>)
      requires Valid()
      modifies this
      ensures Valid()
      ensures r.None? <==> forall w :: 0 <= w < MAXWINDOW ==> w in old(order)
      ensures r.None? ==> order == old(order) && windows == old(windows)
      ensures r.Some? ==>
                && r.value < MAXWINDOW && r.value !in old(order) && order == old(order) + [r.value] && activated == r
                && windows[r.value].pid == pid && windows[r.value].rect == rect && windows[r.value].id == old(nextId)
                && forall w :: 0 <= w < MAXWINDOW && w != r.value ==> SameWindow(old(windows)[w], windows[w])
    {
      for p := 0 to MAXWINDOW
        invariant Valid() && order == old(order) && windows == old(windows) && nextId == old(nextId)
        invariant forall w :: 0 <= w < p ==> w in order
      {
        if windows[p].id <= 0 {
          Fill(p, rect, pid);
          return Some(p);
        }
      }
      return None;
    }

    method Fill(p: nat, rect: Rect, pid: int)
      requires Valid() && p < MAXWINDOW && windows[p].id <= 0
      modifies this
      ensures Valid() && order == old(order) + [p] && activated == Some(p) && p !in old(order)
      ensures windows[p].pid == pid && windows[p].rect == rect && windows[p].id == old(nextId)
      ensures forall w :: 0 <= w < MAXWINDOW && w != p ==> SameWindow(old(windows)[w], windows[w])
    {
      ghost var a := windows;
      windows := windows[p := windows[p].(id := nextId, pid := pid, rect := rect)];
      nextId := nextId + 1;
      forall k | 0 <= k < |order| ensures LinkedAt(windows, order, k) { assert LinkedAt(a, order, k); }
      Stack(p);
      activated := Some(p);
      FillKeeps(a, old(order), old(nextId), windows, p);
    }

    /** setActivated: the bottom window stays; any other moves to the top. */
    method SetActivated(p: nat, ghost k: nat)
      requires Valid() && k < |order| && p == order[k]
      modifies this
      ensures Valid() && activated == Some(p) && nextId == old(nextId)
      ensures order == if k == 0 then old(order) else Cut(old(order), k) + [p]
      ensures forall w :: 0 <= w < MAXWINDOW ==> SameWindow(old(windows)[w], windows[w])
    {
      assert LinkedAt(windows, order, k);
      if head == Some(p) {
        activated := Some(p);
        return;
      }
      ghost var a := windows;
      Unlink(p, k);
      assert p !in order;
      Stack(p);
      activated := Some(p);
      RestackKeeps(a, old(order), nextId, windows, k);
    }

    /** releaseWindow: takes the window with the id out of the list, if there is one, and asks the
        owner of the bottom window to redraw.  When it was the last window there is no bottom
        window, and drawScreen reads through a null list head. */
    method ReleaseWindow(id: int) returns (r: Release)
      requires Valid()
      modifies this
      ensures Valid() && activated == old(activated)
      ensures r == NotFound <==> forall k :: 0 <= k < |old(order)| ==> old(windows)[old(order)[k]].id != id
      ensures r == NotFound ==> order == old(order) && windows == old(windows)
      ensures r != NotFound ==> exists k :: 0 <= k < |old(order)| && old(windows)[old(order)[k]].id == id && order == Cut(old(order), k)
                                 && windows[old(order)[k]].id == -1
      ensures forall w :: 0 <= w < MAXWINDOW && old(windows)[w].id != id ==> SameWindow(old(windows)[w], windows[w])
      ensures r == NullHead <==> r != NotFound && |old(order)| == 1
      ensures r.Released? ==> order != [] && r.told == windows[order[0]].pid
    {
      var p := head;
      ghost var k := 0;
      while p.Some?
        invariant Valid() && order == old(order) && windows == old(windows) && activated == old(activated)
        invariant 0 <= k <= |order| && p == At(order, k)
        invariant forall l :: 0 <= l < k ==> windows[order[l]].id != id
        decreases |order| - k
      {
        assert LinkedAt(windows, order, k);
        if windows[p.value].id == id {
          Drop(p.value, k);
          if head.None? {
            return NullHead;
          }
          assert LinkedAt(windows, order, 0);
          return Released(windows[head.value].pid);
        }
        p := windows[p.value].next;
        k := k + 1;
      }
      return NotFound;
    }

    method Drop(p: nat, ghost k: nat)
      requires Valid() && k < |order| && p == order[k] && p < MAXWINDOW
      modifies this`windows, this`head, this`tail, this`order
      ensures Valid() && order == Cut(old(order), k) && windows[p].id == -1
      ensures forall w :: 0 <= w < MAXWINDOW && w != p ==> SameWindow(old(windows)[w], windows[w])
    {
      ghost var a := windows;
      Unlink(p, k);
      ghost var b := windows;
      windows := windows[p := windows[p].(id := -1)];
      forall l | 0 <= l < |order| ensures LinkedAt(windows, order, l) { assert LinkedAt(b, order, l); }
      DropKeeps(a, old(order), nextId, windows, k);
    }

    /** getWindowByPoint: the topmost window over the point. */
    method GetWindowByPoint(x: int, y: int) returns (r: Option<nat>)
      requires Valid()
      ensures r == Topmost(windows, order, |order|, x, y)
      ensures r.None? ==> forall k :: 0 <= k < |order| ==> !InRect(windows[order[k]].rect, x, y)
      ensures r.Some? ==> exists k :: 0 <= k < |order| && r.value == order[k] && InRect(windows[r.value].rect, x, y)
                                   && forall l :: k < l < |order| ==> !InRect(windows[order[l]].rect, x, y)
    {
      r := tail;
      ghost var k: nat := |order|;
      assert forall l :: 0 <= l < |order| ==> LinkedAt(windows, order, l);
      while r.Some? && !InRect(windows[r.value].rect, x, y)
        invariant k <= |order| && r == At(order, k - 1)
        invariant Topmost(windows, order, |order|, x, y) == Topmost(windows, order, k, x, y)
        invariant forall l :: k <= l < |order| ==> !InRect(windows[order[l]].rect, x, y)
        decreases k
      {
        assert LinkedAt(windows, order, k - 1);
        r := windows[r.value].prior;
        k := k - 1;
      }
    }
  }

  lemma FillKeeps(a: seq<Window>, order: seq<nat>, nextId: int, b: seq<Window>, p: nat)
    requires InUse(a, order, nextId) && |b| == |a| && p < |a| && a[p].id <= 0 && b[p].id == nextId
    requires forall w :: 0 <= w < |a| && w != p ==> SameWindow(a[w], b[w])
    ensures InUse(b, order + [p], nextId + 1)
  {
    forall w | 0 <= w < |b| ensures (b[w].id > 0 <==> w in order + [p]) && b[w].id < nextId + 1 {
      assert w == p || SameWindow(a[w], b[w]);
      assert w in order + [p] <==> w in order || w == p;
    }
    forall v, w | 0 <= v < w < |b| && b[v].id == b[w].id ensures b[v].id <= 0 {
      assert v == p || SameWindow(a[v], b[v]);
      assert w == p || SameWindow(a[w], b[w]);
    }
  }

  lemma CutMembers(order: seq<nat>, k: nat, w: nat)
    requires k < |order| && forall i, j :: 0 <= i < j < |order| ==> order[i] != order[j]
    ensures w in Cut(order, k) <==> w in order && w != order[k]
  {
    if w in order && w != order[k] {
      var i :| 0 <= i < |order| && order[i] == w;
      assert Cut(order, k)[if i < k then i else i - 1] == w;
    }
  }

  lemma DropKeeps(a: seq<Window>, order: seq<nat>, nextId: int, b: seq<Window>, k: nat)
    requires InUse(a, order, nextId) && |b| == |a| && k < |order| && order[k] < |a| && b[order[k]].id == -1
    requires forall w :: 0 <= w < |a| && w != order[k] ==> SameWindow(a[w], b[w])
    requires forall i, j :: 0 <= i < j < |order| ==> order[i] != order[j]
    ensures InUse(b, Cut(order, k), nextId)
  {
    forall w | 0 <= w < |b| ensures (b[w].id > 0 <==> w in Cut(order, k)) && b[w].id < nextId {
      CutMembers(order, k, w);
      assert w == order[k] || SameWindow(a[w], b[w]);
    }
    forall v, w | 0 <= v < w < |b| && b[v].id == b[w].id ensures b[v].id <= 0 {
      assert v == order[k] || SameWindow(a[v], b[v]);
      assert w == order[k] || SameWindow(a[w], b[w]);
    }
  }

  lemma RestackKeeps(a: seq<Window>, order: seq<nat>, nextId: int, b: seq<Window>, k: nat)
    requires InUse(a, order, nextId) && |b| == |a| && k < |order|
    requires forall w :: 0 <= w < |a| ==> SameWindow(a[w], b[w])
    requires forall i, j :: 0 <= i < j < |order| ==> order[i] != order[j]
    ensures InUse(b, Cut(order, k) + [order[k]], nextId)
  {
    forall w | 0 <= w < |b| ensures (b[w].id > 0 <==> w in Cut(order, k) + [order[k]]) && b[w].id < nextId {
      CutMembers(order, k, w);
      assert SameWindow(a[w], b[w]);
    }
    forall v, w | 0 <= v < w < |b| && b[v].id == b[w].id ensures b[v].id <= 0 {
      assert SameWindow(a[v], b[v]) && SameWindow(a[w], b[w]);
    }
  }
}
