/** The message queues of message.c: one queue for each process, all threaded through one
    array of slots.  Each call is one atomic step. */
module Messages {
  import opened Sequences
  import opened Wrappers

  const MAX_QUEUE_LENGTH: nat := 100
  const MAX_PROCESS_NUMBER: nat := 20
  const MSG_UNUSED: nat := 0
  const MSG_UPDATE: nat := 7

  datatype Body = Key(key: int) | Mouse(x: int, y: int) | Area(x1: int, y1: int, x2: int, y2: int)

  /** What a process is told. */
  datatype Item = Item(kind: nat, body: Body)

  datatype Slot = Slot(item: Item, next: int)
  datatype Entry = Entry(pid: int, first: int)

  // ---- the chains ----------------------------------------------------------------------

  function LinkAfter(chain: seq<nat>, k: nat): (i: int)
    requires k < |chain|
  {
    if k + 1 < |chain| then chain[k + 1] else -1
  }

  /** next_msg leads along the chain and ends with -1; no slot comes twice. */
  ghost predicate Chained(queue: seq<Slot>, chain: seq<nat>)
  {
    && (forall k :: 0 <= k < |chain| ==> chain[k] < |queue| && queue[chain[k]].next == LinkAfter(chain, k))
    && (forall k, l :: 0 <= k < l < |chain| ==> chain[k] != chain[l])
  }

  /** The messages of a chain, in order. */
  ghost predicate Holds(queue: seq<Slot>, chain: seq<nat>, mail: seq<Item>)
  {
    |mail| == |chain| && forall k :: 0 <= k < |chain| ==> chain[k] < |queue| && queue[chain[k]].item == mail[k]
  }

  /** The arrays, and what they stand for. */
  datatype State = State(
    queue: seq<Slot>,
    table: seq<Entry>,
    chains: seq<seq<nat>>,           // the slots of each table entry
    owner: seq<Option<nat>>,         // the table entry a slot belongs to
    home: map<int, nat>,             // the table entry of a process
    mail: map<int, seq<Item>>,       // what each process has pending
    lost: set<nat>)                  // slots taken but on no chain

  /** Slot i is free, or on exactly the chain owner[i], or lost. */
  ghost predicate Accounted(s: State, i: nat)
    requires i < |s.queue| && |s.owner| == |s.queue|
  {
    && (s.queue[i].item.kind != MSG_UNUSED <==> s.owner[i].Some? || i in s.lost)
    && (s.owner[i].Some? ==> i !in s.lost && s.owner[i].value < |s.chains| && i in s.chains[s.owner[i].value])
  }

  /** Table entry e heads its chain. */
  ghost predicate Heads(s: State, e: nat)
  {
    e < |s.table| && |s.chains| == |s.table| && |s.owner| == |s.queue| &&
    var entry, chain := s.table[e], s.chains[e];
    && (entry.pid == -1 <==> chain == [])
    && Chained(s.queue, chain)
    && (forall k :: 0 <= k < |chain| ==> s.owner[chain[k]] == Some(e))
    && (entry.pid != -1 ==>
          && entry.first == chain[0] && entry.pid in s.home && s.home[entry.pid] == e
          && entry.pid in s.mail && Holds(s.queue, chain, s.mail[entry.pid]))
  }

  ghost predicate Shape(s: State)
  {
    && |s.queue| == MAX_QUEUE_LENGTH && |s.owner| == MAX_QUEUE_LENGTH
    && |s.table| == MAX_PROCESS_NUMBER && |s.chains| == MAX_PROCESS_NUMBER
    && (forall i :: i in s.lost ==> i < MAX_QUEUE_LENGTH)
    && s.mail.Keys == s.home.Keys
    && (forall p :: p in s.home ==> s.home[p] < MAX_PROCESS_NUMBER && s.table[s.home[p]].pid == p && p != -1)
  }

  ghost predicate Ok(s: State)
  {
    && Shape(s)
    && (forall i :: 0 <= i < MAX_QUEUE_LENGTH ==> Accounted(s, i))
    && (forall e :: 0 <= e < MAX_PROCESS_NUMBER ==> Heads(s, e))
  }

  /** Slot i is free to take. */
  ghost predicate Unused(s: State, i: nat)
  {
    i < |s.queue| && s.queue[i].item.kind == MSG_UNUSED
  }

  // ---- a message joins an existing queue ---------------------------------------------------

  ghost function Appended(s: State, e: nat, i: nat, x: Item): (r: State)
    requires Ok(s) && e < MAX_PROCESS_NUMBER && s.table[e].pid != -1 && Unused(s, i)
  {
    assert Heads(s, e);
    var c, pid := s.chains[e], s.table[e].pid;
    var last := c[|c| - 1];
    s.(queue := s.queue[i := Slot(x, s.queue[i].next)][last := Slot(s.queue[last].item, i)][i := Slot(x, -1)],
       chains := s.chains[e := c + [i]], owner := s.owner[i := Some(e)], mail := s.mail[pid := s.mail[pid] + [x]])
  }

  lemma FreeSlotOnNoChain(s: State, i: nat, e: nat)
    requires Ok(s) && Unused(s, i) && e < MAX_PROCESS_NUMBER
    ensures i !in s.chains[e] && s.owner[i] == None && i !in s.lost
  {
    assert Accounted(s, i) && Heads(s, e);
  }

  lemma ChainsDisjoint(s: State, e: nat, f: nat, k: nat, l: nat)
    requires Ok(s) && e < MAX_PROCESS_NUMBER && f < MAX_PROCESS_NUMBER && e != f && k < |s.chains[e]| && l < |s.chains[f]|
    ensures s.chains[e][k] != s.chains[f][l]
  {
    assert Heads(s, e) && Heads(s, f);
  }

  /** The chain with i linked on at its end. */
  lemma ChainGrows(q: seq<Slot>, r: seq<Slot>, c: seq<nat>, i: nat, x: Item, mail: seq<Item>)
    requires Chained(q, c) && Holds(q, c, mail) && c != [] && i < |q| && i !in c
    requires var last := c[|c| - 1]; r == q[i := Slot(x, q[i].next)][last := Slot(q[last].item, i)][i := Slot(x, -1)]
    ensures Chained(r, c + [i]) && Holds(r, c + [i], mail + [x])
  {
    var d := c + [i];
    forall k | 0 <= k < |d| ensures r[d[k]] == Slot((mail + [x])[k], LinkAfter(d, k)) {
      if k < |c| { assert d[k] == c[k]; }
    }
  }

  lemma AppendedHeads(s: State, e: nat, i: nat, x: Item, f: nat)
    requires Ok(s) && e < MAX_PROCESS_NUMBER && s.table[e].pid != -1 && Unused(s, i) && x.kind != MSG_UNUSED && f < MAX_PROCESS_NUMBER
    ensures Heads(Appended(s, e, i, x), f)
  {
    var r, c := Appended(s, e, i, x), s.chains[f];
    assert Heads(s, e) && Heads(s, f);
    FreeSlotOnNoChain(s, i, f);
    if f != e {
      FreeSlotOnNoChain(s, i, e);
      forall k | 0 <= k < |c| ensures r.queue[c[k]] == s.queue[c[k]] {
        ChainsDisjoint(s, f, e, k, |s.chains[e]| - 1);
      }
    } else {
      ChainGrows(s.queue, r.queue, c, i, x, s.mail[s.table[e].pid]);
    }
  }

  lemma AppendedKeeps(s: State, e: nat, i: nat, x: Item)
    requires Ok(s) && e < MAX_PROCESS_NUMBER && s.table[e].pid != -1 && Unused(s, i) && x.kind != MSG_UNUSED
    ensures Ok(Appended(s, e, i, x))
  {
    var r := Appended(s, e, i, x);
    assert Heads(s, e);
    assert Accounted(s, i);
    forall f | 0 <= f < MAX_PROCESS_NUMBER ensures Heads(r, f) { AppendedHeads(s, e, i, x, f); }
    forall j | 0 <= j < MAX_QUEUE_LENGTH ensures Accounted(r, j) {
      assert Accounted(s, j);
      assert r.chains[e][|s.chains[e]|] == i;
      if s.owner[j] == Some(e) { assert j in s.chains[e]; assert j in r.chains[e]; }
    }
  }

  // ---- a message opens a queue ----------------------------------------------------------------

  ghost function Opened(s: State, e: nat, pid: int, i: nat, x: Item): (r: State)
    requires Ok(s) && e < MAX_PROCESS_NUMBER && Unused(s, i)
  {
    s.(queue := s.queue[i := Slot(x, -1)], table := s.table[e := Entry(pid, i)], chains := s.chains[e := [i]],
       owner := s.owner[i := Some(e)], home := s.home[pid := e], mail := s.mail[pid := [x]])
  }

  lemma OpenedKeeps(s: State, e: nat, pid: int, i: nat, x: Item)
    requires Ok(s) && e < MAX_PROCESS_NUMBER && s.table[e].pid == -1 && pid != -1 && pid !in s.home && Unused(s, i) && x.kind != MSG_UNUSED
    ensures Ok(Opened(s, e, pid, i, x))
  {
    var r := Opened(s, e, pid, i, x);
    assert Heads(s, e);
    forall f | 0 <= f < MAX_PROCESS_NUMBER ensures Heads(r, f) {
      assert Heads(s, f);
      FreeSlotOnNoChain(s, i, f);
    }
    forall j | 0 <= j < MAX_QUEUE_LENGTH ensures Accounted(r, j) {
      assert Accounted(s, j);
      assert r.chains[e][0] == i;
    }
  }

  // ---- no table entry: the slot is lost -------------------------------------------------------

  ghost function Leaked(s: State, i: nat, x: Item): (r: State)
    requires Ok(s) && Unused(s, i)
  {
    s.(queue := s.queue[i := Slot(x, s.queue[i].next)], lost := s.lost + {i})
  }

  lemma LeakedKeeps(s: State, i: nat, x: Item)
    requires Ok(s) && Unused(s, i) && x.kind != MSG_UNUSED
    ensures Ok(Leaked(s, i, x)) && i !in s.lost
  {
    var r := Leaked(s, i, x);
    assert Accounted(s, i);
    forall f | 0 <= f < MAX_PROCESS_NUMBER ensures Heads(r, f) {
      assert Heads(s, f);
      FreeSlotOnNoChain(s, i, f);
    }
    forall j | 0 <= j < MAX_QUEUE_LENGTH ensures Accounted(r, j) { assert Accounted(s, j); }
  }

  // ---- a message is fetched -------------------------------------------------------------------

  ghost function Removed(s: State, e: nat): (r: State)
    requires Ok(s) && e < MAX_PROCESS_NUMBER && s.table[e].pid != -1
  {
    assert Heads(s, e);
    var c, pid := s.chains[e], s.table[e].pid;
    var i := c[0];
    var queue := s.queue[i := Slot(s.queue[i].item.(kind := MSG_UNUSED), s.queue[i].next)];
    var table := s.table[e := if s.queue[i].next == -1 then Entry(-1, s.table[e].first) else Entry(pid, s.queue[i].next)];
    var rest := s.mail[pid][1..];
    s.(queue := queue, table := table, chains := s.chains[e := c[1..]], owner := s.owner[i := None],
       home := if rest == [] then s.home - {pid} else s.home,
       mail := if rest == [] then s.mail - {pid} else s.mail[pid := rest])
  }

  lemma RemovedHeads(s: State, e: nat, f: nat)
    requires Ok(s) && e < MAX_PROCESS_NUMBER && s.table[e].pid != -1 && f < MAX_PROCESS_NUMBER
    ensures Heads(Removed(s, e), f)
  {
    var r, c := Removed(s, e), s.chains[f];
    assert Heads(s, e) && Heads(s, f);
    if f != e {
      forall k | 0 <= k < |c| ensures r.queue[c[k]] == s.queue[c[k]] && r.owner[c[k]] == s.owner[c[k]] {
        ChainsDisjoint(s, f, e, k, 0);
      }
    } else {
      var d := c[1..];
      forall k | 0 <= k < |d| ensures d[k] == c[k + 1] && r.queue[d[k]] == s.queue[d[k]] && r.owner[d[k]] == s.owner[d[k]] && LinkAfter(d, k) == LinkAfter(c, k + 1) { }
      assert Chained(r.queue, d);
    }
  }

  lemma RemovedKeeps(s: State, e: nat)
    requires Ok(s) && e < MAX_PROCESS_NUMBER && s.table[e].pid != -1
    ensures Ok(Removed(s, e))
  {
    var r, c := Removed(s, e), s.chains[e];
    assert Heads(s, e);
    forall f | 0 <= f < MAX_PROCESS_NUMBER ensures Heads(r, f) { RemovedHeads(s, e, f); }
    forall j | 0 <= j < MAX_QUEUE_LENGTH ensures Accounted(r, j) {
      assert Accounted(s, j);
      if j != c[0] && s.owner[j] == Some(e) {
        var k :| 0 <= k < |c| && c[k] == j;
        assert c[1..][k - 1] == j;
      }
    }
  }

  // ---- histories --------------------------------------------------------------------------------

  /** The messages of process pid among (pid, message) pairs. */
  ghost function Of(log: seq<(int, Item)>, pid: int): (r: seq<Item>)
  {
    if log == [] then []
    else Of(log[..|log| - 1], pid) + (if log[|log| - 1].0 == pid then [log[|log| - 1].1] else [])
  }

  lemma OfAppend(log: seq<(int, Item)>, pid: int, x: Item, p: int)
    ensures Of(log + [(pid, x)], p) == if p == pid then Of(log, p) + [x] else Of(log, p)
  {
    assert (log + [(pid, x)])[..|log|] == log;
  }

  ghost function Pending(mail: map<int, seq<Item>>, pid: int): (r: seq<Item>)
  {
    if pid in mail then mail[pid] else []
  }

  /** Each process has been given what was accepted for it, in order, but for what is pending. */
  ghost predicate Faithful(accepted: seq<(int, Item)>, delivered: seq<(int, Item)>, mail: map<int, seq<Item>>)
  {
    forall p :: Of(accepted, p) == Of(delivered, p) + Pending(mail, p)
  }

  lemma Regroup(a: seq<Item>, b: seq<Item>, x: Item)
    ensures a + b + [x] == a + (b + [x])
  {
  }

  lemma Unhead(a: seq<Item>, b: seq<Item>)
    requires b != []
    ensures a + b == a + [b[0]] + b[1..]
  {
  }

  lemma AcceptKeeps(accepted: seq<(int, Item)>, delivered: seq<(int, Item)>, mail: map<int, seq<Item>>, pid: int, x: Item)
    requires Faithful(accepted, delivered, mail)
    ensures Faithful(accepted + [(pid, x)], delivered, mail[pid := Pending(mail, pid) + [x]])
  {
    forall p ensures Of(accepted + [(pid, x)], p) == Of(delivered, p) + Pending(mail[pid := Pending(mail, pid) + [x]], p) {
      OfAppend(accepted, pid, x, p);
      Regroup(Of(delivered, p), Pending(mail, p), x);
    }
  }

  lemma DeliverKeeps(accepted: seq<(int, Item)>, delivered: seq<(int, Item)>, mail: map<int, seq<Item>>, now: map<int, seq<Item>>, pid: int)
    requires Faithful(accepted, delivered, mail) && pid in mail && mail[pid] != []
    requires forall p :: Pending(now, p) == if p == pid then mail[pid][1..] else Pending(mail, p)
    ensures Faithful(accepted, delivered + [(pid, mail[pid][0])], now)
  {
    var x := mail[pid][0];
    forall p ensures Of(accepted, p) == Of(delivered + [(pid, x)], p) + Pending(now, p) {
      OfAppend(delivered, pid, x, p);
      if p == pid { Unhead(Of(delivered, p), mail[pid]); }
    }
  }

  // ---- how much room there is -----------------------------------------------------------------------

  predicate IsUnused(x: Slot)
  {
    x.item.kind == MSG_UNUSED
  }

  predicate IsFree(x: Entry)
  {
    x.pid == -1
  }

  lemma {:induction false} AppendedRoom(s: State, e: nat, i: nat, x: Item)
    requires Ok(s) && e < MAX_PROCESS_NUMBER && s.table[e].pid != -1 && Unused(s, i) && x.kind != MSG_UNUSED
    ensures Count(Appended(s, e, i, x).queue, IsUnused) == Count(s.queue, IsUnused) - 1
  {
    assert Heads(s, e);
    FreeSlotOnNoChain(s, i, e);
    CountLess(s.queue, Appended(s, e, i, x).queue, IsUnused, i);
  }

  lemma {:induction false} OpenedRoom(s: State, e: nat, pid: int, i: nat, x: Item)
    requires Ok(s) && e < MAX_PROCESS_NUMBER && s.table[e].pid == -1 && pid != -1 && Unused(s, i) && x.kind != MSG_UNUSED
    ensures var r := Opened(s, e, pid, i, x);
            Count(r.queue, IsUnused) == Count(s.queue, IsUnused) - 1 && Count(r.table, IsFree) == Count(s.table, IsFree) - 1
  {
    CountLess(s.queue, Opened(s, e, pid, i, x).queue, IsUnused, i);
    CountLess(s.table, Opened(s, e, pid, i, x).table, IsFree, e);
  }

  lemma {:induction false} LeakedRoom(s: State, i: nat, x: Item)
    requires Ok(s) && Unused(s, i) && x.kind != MSG_UNUSED
    ensures Count(Leaked(s, i, x).queue, IsUnused) == Count(s.queue, IsUnused) - 1
  {
    CountLess(s.queue, Leaked(s, i, x).queue, IsUnused, i);
  }

  lemma {:induction false} RemovedRoom(s: State, e: nat)
    requires Ok(s) && e < MAX_PROCESS_NUMBER && s.table[e].pid != -1
    ensures var r, pid := Removed(s, e), s.table[e].pid;
            && Count(r.queue, IsUnused) == Count(s.queue, IsUnused) + 1
            && Count(r.table, IsFree) == Count(s.table, IsFree) + if Pending(r.mail, pid) == [] then 1 else 0
  {
    RemovedKeeps(s, e);
    var r := Removed(s, e);
    assert Heads(s, e) && Heads(r, e);
    var i := s.chains[e][0];
    assert Accounted(s, i);
    CountLess(r.queue, s.queue, IsUnused, i);
    if r.table[e].pid == -1 { CountLess(r.table, s.table, IsFree, e); } else { CountSame(s.table, r.table, IsFree); }
  }

  // ---- the arrays ---------------------------------------------------------------------------------

  class Slab {
    var queue: seq<Slot>
    var table: seq<Entry>
    ghost var s: State
    ghost var accepted: seq<(int, Item)>
    ghost var delivered: seq<(int, Item)>
    ghost var refused: seq<(int, Item)>      // refused or lost

    ghost predicate Valid()
      reads this
    {
      s.queue == queue && s.table == table && Ok(s) && Faithful(accepted, delivered, s.mail)
    }

    /** Every table entry serves another process. */
    ghost predicate TableFull(pid: int)
      reads this
    {
      pid !in s.home && forall e :: 0 <= e < |table| ==> table[e].pid != -1
    }

    ghost predicate SlabFull()
      reads this
    {
      forall i :: 0 <= i < |queue| ==> queue[i].item.kind != MSG_UNUSED
    }

    /** The unused slots, and the free table entries. */
    ghost function FreeSlots(): (n: nat)
      reads this
    {
      Count(queue, IsUnused)
    }

    ghost function FreeEntries(): (n: nat)
      reads this
    {
      Count(table, IsFree)
    }

    /** What can be refused and lost, by the room there is. */
    lemma Room(pid: int)
      requires Valid()
      ensures SlabFull() <==> FreeSlots() == 0
      ensures TableFull(pid) <==> pid !in s.mail && FreeEntries() == 0
    {
      CountNone(queue, IsUnused);
      CountNone(table, IsFree);
    }

    /** msgqueueinit and msgtableinit. */
    constructor ()
      ensures Valid() && s.mail == map[] && s.lost == {} && accepted == [] && delivered == [] && refused == []
      ensures FreeSlots() == MAX_QUEUE_LENGTH && FreeEntries() == MAX_PROCESS_NUMBER
    {
      queue := seq(MAX_QUEUE_LENGTH, i => Slot(Item(MSG_UNUSED, Key(0)), 0));
      table := seq(MAX_PROCESS_NUMBER, i => Entry(-1, 0));
      s := State(seq(MAX_QUEUE_LENGTH, i => Slot(Item(MSG_UNUSED, Key(0)), 0)), seq(MAX_PROCESS_NUMBER, i => Entry(-1, 0)),
                 seq(MAX_PROCESS_NUMBER, i => []), seq(MAX_QUEUE_LENGTH, i => None), map[], map[], {});
      accepted, delivered, refused := [], [], [];
      new;
      CountAll(queue, IsUnused);
      CountAll(table, IsFree);
    }

    /** requireMsg and requirePartialUpdateMsg: the first unused slot. */
    method RequireMsg(x: Item) returns (r: Option<nat>)
      requires |queue| == MAX_QUEUE_LENGTH && x.kind != MSG_UNUSED
      modifies this`queue
      ensures r.None? <==> old(SlabFull())
      ensures r.None? ==> queue == old(queue)
      ensures r.Some? ==> r.value < MAX_QUEUE_LENGTH && old(queue)[r.value].item.kind == MSG_UNUSED
                          && queue == old(queue)[r.value := Slot(x, old(queue)[r.value].next)]
                          && forall k :: 0 <= k < r.value ==> old(queue)[k].item.kind != MSG_UNUSED
    {
      for i := 0 to MAX_QUEUE_LENGTH
        invariant queue == old(queue) && forall k :: 0 <= k < i ==> queue[k].item.kind != MSG_UNUSED
      {
        if queue[i].item.kind == MSG_UNUSED {
          queue := queue[i := Slot(x, queue[i].next)];
          return Some(i);
        }
      }
      return None;
    }

    /** The first table entry with the given pid field. */
    method Lookup(pid: int) returns (r: Option<nat>)
      requires |table| == MAX_PROCESS_NUMBER
      ensures r.None? <==> forall e :: 0 <= e < MAX_PROCESS_NUMBER ==> table[e].pid != pid
      ensures r.Some? ==> r.value < MAX_PROCESS_NUMBER && table[r.value].pid == pid
    {
      for i := 0 to MAX_PROCESS_NUMBER
        invariant forall k :: 0 <= k < i ==> table[k].pid != pid
      {
        if table[i].pid == pid {
          return Some(i);
        }
      }
      return None;
    }

    /** dispatch's walk to the last message of a queue. */
    method LastOf(first: int, ghost chain: seq<nat>) returns (t: nat)
      requires chain != [] && Chained(queue, chain) && first == chain[0]
      ensures t == chain[|chain| - 1]
    {
      t := first;
      ghost var k := 0;
      while queue[t].next != -1
        invariant 0 <= k < |chain| && t == chain[k]
        decreases |chain| - k
      {
        assert queue[chain[k]].next == LinkAfter(chain, k);
        t := queue[t].next;
        k := k + 1;
      }
      assert queue[chain[k]].next == LinkAfter(chain, k);
    }

    /** Slot i, free in q0, holds x now. */
    ghost predicate Taken(q0: seq<Slot>, i: nat, x: Item)
      reads this
    {
      && s.queue == q0 && s.table == table && Ok(s) && Faithful(accepted, delivered, s.mail) && Unused(s, i)
      && queue == q0[i := Slot(x, q0[i].next)] && x.kind != MSG_UNUSED
    }

    /** dispatch, first loop: the process has a queue already. */
    method Append(e: nat, pid: int, i: nat, ghost x: Item)
      requires Taken(s.queue, i, x) && e < MAX_PROCESS_NUMBER && table[e].pid == pid != -1
      modifies this
      ensures Valid() && s == Appended(old(s), e, i, x) && accepted == old(accepted) + [(pid, x)] && delivered == old(delivered) && refused == old(refused)
    {
      assert Heads(s, e);
      ghost var c := s.chains[e];
      FreeSlotOnNoChain(s, i, e);
      forall k | 0 <= k < |c| ensures queue[c[k]] == s.queue[c[k]] { }
      assert Chained(queue, c);
      var t := LastOf(table[e].first, c);
      queue := queue[t := Slot(queue[t].item, i)];
      queue := queue[i := Slot(queue[i].item, -1)];
      AppendedKeeps(s, e, i, x);
      AcceptKeeps(accepted, delivered, s.mail, pid, x);
      s, accepted := Appended(s, e, i, x), accepted + [(pid, x)];
    }

    /** dispatch, second loop: the process gets a queue. */
    method Open(e: nat, pid: int, i: nat, ghost x: Item)
      requires Taken(s.queue, i, x) && e < MAX_PROCESS_NUMBER && table[e].pid == -1 && pid != -1 && pid !in s.home
      modifies this
      ensures Valid() && s == Opened(old(s), e, pid, i, x) && accepted == old(accepted) + [(pid, x)] && delivered == old(delivered) && refused == old(refused)
    {
      ghost var t := Opened(s, e, pid, i, x);
      OpenedKeeps(s, e, pid, i, x);
      AcceptKeeps(accepted, delivered, s.mail, pid, x);
      assert Pending(s.mail, pid) + [x] == [x];
      table := table[e := Entry(pid, i)];
      queue := queue[i := Slot(queue[i].item, -1)];
      assert queue == t.queue && table == t.table;
      s, accepted := t, accepted + [(pid, x)];
    }

    /** dispatch. */
    method Dispatch(pid: int, i: nat, ghost x: Item)
      requires Taken(s.queue, i, x) && pid != -1
      modifies this
      ensures Valid() && delivered == old(delivered) && refused == old(refused)
      ensures old(TableFull(pid)) ==> s == Leaked(old(s), i, x) && accepted == old(accepted)
      ensures !old(TableFull(pid)) ==> s.mail == old(s).mail[pid := Pending(old(s).mail, pid) + [x]] && s.lost == old(s).lost
                                       && accepted == old(accepted) + [(pid, x)]
      ensures FreeSlots() == Count(old(s).queue, IsUnused) - 1
      ensures FreeEntries() == old(FreeEntries()) - if old(TableFull(pid)) || pid in old(s).mail then 0 else 1
    {
      var e := Lookup(pid);
      if e.Some? {
        assert Heads(s, e.value);
        AppendedRoom(s, e.value, i, x);
        Append(e.value, pid, i, x);
      } else {
        assert pid !in s.home;
        e := Lookup(-1);
        assert Pending(s.mail, pid) + [x] == [x];
        if e.Some? {
          OpenedRoom(s, e.value, pid, i, x);
          Open(e.value, pid, i, x);
        } else {
          LeakedKeeps(s, i, x);
          LeakedRoom(s, i, x);
          s := Leaked(s, i, x);
        }
      }
    }

    /** createUpdateMsg, createPartialUpdateMsg and createMsg's posting of x to a process: refused
        when every slot is taken, lost with its slot when the table has no room for the process,
        and at the end of the process's queue otherwise. */
    method Post(pid: int, x: Item)
      requires Valid() && pid != -1 && x.kind != MSG_UNUSED
      modifies this
      ensures Valid() && delivered == old(delivered)
      ensures old(SlabFull()) ==> s == old(s) && accepted == old(accepted)
      ensures !old(SlabFull()) && old(TableFull(pid)) ==>
                s.mail == old(s).mail && accepted == old(accepted) && |s.lost| == |old(s).lost| + 1
      ensures !old(SlabFull()) && !old(TableFull(pid)) ==>
                s.mail == old(s).mail[pid := Pending(old(s).mail, pid) + [x]] && accepted == old(accepted) + [(pid, x)] && s.lost == old(s).lost
      ensures refused == if old(SlabFull()) || old(TableFull(pid)) then old(refused) + [(pid, x)] else old(refused)
      ensures FreeSlots() == old(FreeSlots()) - if old(SlabFull()) then 0 else 1
      ensures FreeEntries() == old(FreeEntries()) - if old(SlabFull()) || old(TableFull(pid)) || pid in old(s).mail then 0 else 1
    {
      ghost var full := SlabFull() || TableFull(pid);
      var i := RequireMsg(x);
      if i.Some? {
        LeakedKeeps(s, i.value, x);
        Dispatch(pid, i.value, x);
      }
      refused := if full then refused + [(pid, x)] else refused;
    }

    /** getMsg: the oldest pending message of the process, which leaves the queue; or none. */
    method GetMsg(pid: int) returns (r: Option<Item>)
      requires Valid() && pid != -1
      modifies this
      ensures Valid() && s.lost == old(s).lost && accepted == old(accepted) && refused == old(refused)
      ensures r.None? <==> Pending(old(s).mail, pid) == []
      ensures r.None? ==> s == old(s) && delivered == old(delivered)
      ensures r.Some? ==> Pending(old(s).mail, pid) == [r.value] + Pending(s.mail, pid) && delivered == old(delivered) + [(pid, r.value)]
      ensures forall p :: p != pid ==> Pending(s.mail, p) == Pending(old(s).mail, p)
      ensures FreeSlots() == old(FreeSlots()) + if r.Some? then 1 else 0
      ensures FreeEntries() == old(FreeEntries()) + if r.Some? && Pending(s.mail, pid) == [] then 1 else 0
    {
      var e := Lookup(pid);
      if e.None? {
        assert pid !in s.home;
        return None;
      }
      assert Heads(s, e.value);
      RemovedRoom(s, e.value);
      var x := Fetch(e.value, pid);
      r := Some(x);
    }

    method Fetch(e: nat, pid: int) returns (x: Item)
      requires Valid() && e < MAX_PROCESS_NUMBER && table[e].pid == pid != -1 && Heads(s, e)
      modifies this
      ensures Valid() && s == Removed(old(s), e) && accepted == old(accepted) && refused == old(refused)
      ensures Pending(old(s).mail, pid) == [x] + Pending(s.mail, pid) && delivered == old(delivered) + [(pid, x)]
      ensures forall p :: p != pid ==> Pending(s.mail, p) == Pending(old(s).mail, p)
    {
      var i := table[e].first;
      x := queue[i].item;
      if queue[i].next == -1 {
        table := table[e := Entry(-1, table[e].first)];
      } else {
        table := table[e := Entry(pid, queue[i].next)];
      }
      queue := queue[i := Slot(queue[i].item.(kind := MSG_UNUSED), queue[i].next)];
      ghost var t := Removed(s, e);
      RemovedKeeps(s, e);
      assert s.mail[pid] == [x] + s.mail[pid][1..];
      DeliverKeeps(accepted, delivered, s.mail, t.mail, pid);
      s, delivered := t, delivered + [(pid, x)];
    }
  }

  /** A run that loses a slot: one message each to as many processes as the table has entries, and
      one to another process. */
  method LosesASlot(x: Item) returns (m: Slab)
    requires x.kind != MSG_UNUSED
    ensures fresh(m) && m.Valid() && |m.s.lost| == 1 && |m.accepted| == MAX_PROCESS_NUMBER
    ensures forall p :: Pending(m.s.mail, p) == if 1 <= p <= MAX_PROCESS_NUMBER then [x] else []
  {
    m := FillTable(x);
    m.Room(MAX_PROCESS_NUMBER + 1);
    m.Post(MAX_PROCESS_NUMBER + 1, x);
  }

  method FillTable(x: Item) returns (m: Slab)
    requires x.kind != MSG_UNUSED
    ensures fresh(m) && OneEach(m, MAX_PROCESS_NUMBER, x)
  {
    m := new Slab();
    for k := 0 to MAX_PROCESS_NUMBER
      invariant fresh(m) && OneEach(m, k, x)
    {
      PostOne(m, k, x);
    }
  }

  /** Processes 1 to k have x pending, and nothing else is there. */
  ghost predicate OneEach(m: Slab, k: nat, x: Item)
    reads m
  {
    && m.Valid() && m.s.lost == {} && |m.accepted| == k
    && m.FreeSlots() == MAX_QUEUE_LENGTH - k && m.FreeEntries() == MAX_PROCESS_NUMBER - k
    && m.s.mail.Keys == Pids(k) && forall p :: 1 <= p <= k ==> m.s.mail[p] == [x]
  }

  method PostOne(m: Slab, k: nat, x: Item)
    requires OneEach(m, k, x) && k < MAX_PROCESS_NUMBER && x.kind != MSG_UNUSED
    modifies m
    ensures OneEach(m, k + 1, x)
  {
    m.Room(k + 1);
    m.Post(k + 1, x);
  }

  /** The numbers 1 to k. */
  ghost function Pids(k: nat): (s: set<int>)
    ensures forall p :: p in s <==> 1 <= p <= k
  {
    if k == 0 then {} else Pids(k - 1) + {k}
  }

  /** Where no slot is lost, and only there, every used slot is on a chain. */
  lemma ChainsCoverUsedSlots(s: State)
    requires Ok(s)
    ensures s.lost == {} <==> forall i :: 0 <= i < MAX_QUEUE_LENGTH && s.queue[i].item.kind != MSG_UNUSED ==> OnChain(s, i)
  {
    forall i | 0 <= i < MAX_QUEUE_LENGTH && s.queue[i].item.kind != MSG_UNUSED ensures OnChain(s, i) <==> i !in s.lost {
      assert Accounted(s, i);
      if OnChain(s, i) {
        var e :| 0 <= e < MAX_PROCESS_NUMBER && i in s.chains[e];
        assert Heads(s, e);
      }
    }
    forall i | i in s.lost ensures i < MAX_QUEUE_LENGTH && s.queue[i].item.kind != MSG_UNUSED { assert Accounted(s, i); }
  }

  ghost predicate OnChain(s: State, i: nat)
    requires |s.chains| == MAX_PROCESS_NUMBER
  {
    exists e :: 0 <= e < MAX_PROCESS_NUMBER && i in s.chains[e]
  }
}
