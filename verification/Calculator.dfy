/** The calculator of cal.c at the level of tokens and integer values: toRPN, and caln's
    repeated reduction of the leftmost operator. */
module Calculator {
  import opened Wrappers

  const MAXCOUNT: nat := 100

  /** A cell of the token arrays; Blank is the empty string. */
  datatype Token = Blank | Num(n: int) | Plus | Minus | Times | Divide | Open | Close

  predicate IsOp(t: Token)
  {
    t.Plus? || t.Minus? || t.Times? || t.Divide?
  }

  // ---- expressions -------------------------------------------------------------------------

  datatype Expr = Const(n: nat) | Paren(e: Expr) | Bin(op: Token, l: Expr, r: Expr)

  /** 1 for + and -, 2 for * and /. */
  function Prec(op: Token): (p: nat)
  {
    if op.Plus? || op.Minus? then 1 else 2
  }

  function Level(e: Expr): (p: nat)
  {
    if e.Bin? then Prec(e.op) else 3
  }

  /** The tree is the one usual precedence and left association give its own text. */
  predicate Proper(e: Expr)
  {
    match e
    case Const(_) => true
    case Paren(x) => Proper(x)
    case Bin(op, l, r) => IsOp(op) && Proper(l) && Proper(r) && Level(l) >= Prec(op) && Level(r) > Prec(op)
  }

  function Infix(e: Expr): (s: seq<Token>)
  {
    match e
    case Const(n) => [Num(n)]
    case Paren(x) => [Open] + Infix(x) + [Close]
    case Bin(op, l, r) => Infix(l) + [op] + Infix(r)
  }

  function Postfix(e: Expr): (s: seq<Token>)
  {
    match e
    case Const(n) => [Num(n)]
    case Paren(x) => Postfix(x)
    case Bin(op, l, r) => Postfix(l) + Postfix(r) + [op]
  }

  /** C's division truncates. */
  function Quotient(x: int, y: int): (q: int)
    requires y != 0
  {
    if x >= 0 then x / y else -(-x / y)
  }

  /** cal3; None is division by zero. */
  function Apply(op: Token, x: int, y: int): (r: Option<int>)
  {
    match op
    case Plus => Some(x + y)
    case Minus => Some(x - y)
    case Times => Some(x * y)
    case _ => if y == 0 then None else Some(Quotient(x, y))
  }

  /** The operators are those of arithmetic: what - gives makes up x with y; + and * go step by step
      from 0; and / leaves a remainder smaller than the divisor, on the side of x. */
  lemma {:induction false} Arithmetic(x: int, y: int)
    ensures Apply(Minus, x, y).Some? && Apply(Minus, x, y).value + y == x
    ensures Apply(Plus, x, 0) == Some(x) && Apply(Plus, x, y).Some? && Apply(Plus, x, y + 1) == Some(Apply(Plus, x, y).value + 1)
    ensures Apply(Times, x, 0) == Some(0) && Apply(Times, x, y).Some? && Apply(Times, x, y + 1) == Some(Apply(Times, x, y).value + x)
    ensures Apply(Divide, x, y).None? <==> y == 0
    ensures y != 0 ==> Leaves(x, y, Apply(Divide, x, y).value)
  {
    assert x * (y + 1) == x * y + x;
    if y != 0 { QuotientLeaves(x, y); }
  }

  /** q times y, and a remainder smaller than y on the side of x, make x. */
  predicate Leaves(x: int, y: int, q: int)
  {
    exists r :: q * y + r == x && Smaller(r, y) && (r > 0 ==> x > 0) && (r < 0 ==> x < 0)
  }

  predicate Smaller(r: int, y: int)
  {
    if y > 0 then -y < r < y else y < r < -y
  }

  lemma {:induction false} QuotientLeaves(x: int, y: int)
    requires y != 0
    ensures Leaves(x, y, Quotient(x, y))
  {
    var k, r := Euclid(if x >= 0 then x else -x, y);
    if x >= 0 {
      Remainder(x, y, k, r);
    } else {
      Negated(k, y);
      Remainder(x, y, -k, -r);
    }
  }

  lemma {:induction false} Euclid(m: nat, y: int) returns (k: int, r: int)
    requires y != 0
    ensures k == m / y && r >= 0 && k * y + r == m && Smaller(r, y) && (r > 0 ==> m > 0)
  {
    k, r := m / y, m % y;
    if m == 0 { assert 0 / y == 0 && 0 % y == 0; }
  }

  lemma Negated(k: int, y: int)
    ensures -k * y == -(k * y)
  {
  }

  lemma Remainder(x: int, y: int, q: int, r: int)
    requires q * y + r == x && Smaller(r, y) && (r > 0 ==> x > 0) && (r < 0 ==> x < 0)
    ensures Leaves(x, y, q)
  {
  }

  /** No other quotient does. */
  lemma {:induction false} OneQuotient(x: int, y: int, p: int, q: int)
    requires y != 0 && Leaves(x, y, p) && Leaves(x, y, q)
    ensures p == q
  {
    var r :| p * y + r == x && Smaller(r, y) && (r > 0 ==> x > 0) && (r < 0 ==> x < 0);
    var t :| q * y + t == x && Smaller(t, y) && (t > 0 ==> x > 0) && (t < 0 ==> x < 0);
    Multiple(p - q, y, t - r);
  }

  lemma {:induction false} Multiple(d: int, y: int, r: int)
    requires d * y == r && Smaller(r, y)
    ensures d == 0
  {
    var e, z := if d > 0 then d else -d, if y > 0 then y else -y;
    assert e * z == r || e * z == -r;
    if e > 0 { Far(e, z); }
  }

  lemma {:induction false} Far(d: nat, y: int)
    requires d > 0 && y >= 0
    ensures d * y >= y
    decreases d
  {
    if d > 1 {
      Far(d - 1, y);
      assert d * y == (d - 1) * y + y;
    }
  }

  function Value(e: Expr): (r: Option<int>)
  {
    match e
    case Const(n) => Some(n)
    case Paren(x) => Value(x)
    case Bin(op, l, r) =>
      if Value(l).None? || Value(r).None? then None else Apply(op, Value(l).value, Value(r).value)
  }

  /** v is what the operator makes of x and y. */
  predicate OpMeans(op: Token, x: int, y: int, v: int)
  {
    match op
    case Plus => v == x + y
    case Minus => v + y == x
    case Times => v == x * y
    case _ => y != 0 && Leaves(x, y, v)
  }

  /** v is a value of the expression, its operators taken as in arithmetic. */
  ghost predicate Means(e: Expr, v: int)
  {
    match e
    case Const(n) => v == n
    case Paren(x) => Means(x, v)
    case Bin(op, l, r) => exists x, y :: Means(l, x) && Means(r, y) && OpMeans(op, x, y, v)
  }

  lemma {:induction false} ApplyMeans(op: Token, x: int, y: int, v: int)
    ensures Apply(op, x, y) == Some(v) <==> OpMeans(op, x, y, v)
  {
    Arithmetic(x, y);
    if y != 0 && Leaves(x, y, v) {
      QuotientLeaves(x, y);
      OneQuotient(x, y, v, Quotient(x, y));
    }
  }

  /** Value finds the one value there is, if there is one. */
  lemma {:induction false} ValueMeans(e: Expr, v: int)
    ensures Value(e) == Some(v) <==> Means(e, v)
    decreases e
  {
    match e {
      case Const(_) =>
      case Paren(x) => ValueMeans(x, v);
      case Bin(op, l, r) =>
        if Value(e) == Some(v) {
          var x, y := Value(l).value, Value(r).value;
          ValueMeans(l, x);
          ValueMeans(r, y);
          ApplyMeans(op, x, y, v);
        }
        if Means(e, v) {
          var x, y :| Means(l, x) && Means(r, y) && OpMeans(op, x, y, v);
          ValueMeans(l, x);
          ValueMeans(r, y);
          ApplyMeans(op, x, y, v);
        }
    }
  }

  // ---- precede -----------------------------------------------------------------------------

  datatype Order = Less | Equal | Greater

  function Precede(x: Token, y: Token): (c: Order)
  {
    var i := if x.Plus? || x.Minus? then 3 else if x.Times? || x.Divide? then 5
             else if x.Open? then 1 else if x.Close? then 8 else 0;
    var j := if y.Plus? || y.Minus? then 3 else if y.Times? then 5 else if y.Divide? then 6
             else if y.Open? then 1 else if y.Close? then 8 else 0;
    if i > j then Greater else if i < j then Less else Equal
  }

  /** The incoming operator x sends the stacked y to the output. */
  predicate Pops(x: Token, y: Token)
  {
    Precede(x, y) == Less || Precede(x, y) == Equal
  }

  /** The table is usual precedence, though it ranks * and / apart. */
  lemma PopsIsPrecedence(x: Token, y: Token)
    requires IsOp(x) && !y.Close?
    ensures Pops(x, y) <==> IsOp(y) && Prec(y) >= Prec(x)
  {
  }

  // ---- the stack machine of toRPN ------------------------------------------------------------

  datatype Machine = Machine(out: seq<Token>, stack: seq<Token>)

  function Last(s: seq<Token>): (t: Token)
    requires s != []
  {
    s[|s| - 1]
  }

  function Front(s: seq<Token>): (r: seq<Token>)
    requires s != []
  {
    s[..|s| - 1]
  }

  /** A closing parenthesis: None if nothing opens it. */
  function Unwind(m: Machine): (r: Option<Machine>)
    decreases |m.stack|
    ensures r.Some? ==> |r.value.out| + |r.value.stack| + 1 == |m.out| + |m.stack|
  {
    if m.stack == [] then None
    else if Last(m.stack).Open? then Some(Machine(m.out, Front(m.stack)))
    else Unwind(Machine(m.out + [Last(m.stack)], Front(m.stack)))
  }

  /** The operators x sends to the output. */
  function Yield(x: Token, m: Machine): (r: Machine)
    decreases |m.stack|
    ensures |r.out| + |r.stack| == |m.out| + |m.stack|
  {
    if m.stack != [] && Pops(x, Last(m.stack)) then Yield(x, Machine(m.out + [Last(m.stack)], Front(m.stack))) else m
  }

  function Feed(m: Machine, t: Token): (r: Option<Machine>)
    ensures r.Some? ==> |r.value.out| + |r.value.stack| <= |m.out| + |m.stack| + 1
  {
    if t.Num? then Some(Machine(m.out + [t], m.stack))
    else if t.Open? then Some(Machine(m.out, m.stack + [t]))
    else if t.Close? then Unwind(m)
    else var y := Yield(t, m); Some(Machine(y.out, y.stack + [t]))
  }

  function FeedAll(m: Machine, s: seq<Token>): (r: Option<Machine>)
    decreases |s|
  {
    if s == [] then Some(m)
    else var n := Feed(m, s[0]); if n.None? then None else FeedAll(n.value, s[1..])
  }

  function Flush(m: Machine): (r: seq<Token>)
    decreases |m.stack|
  {
    if m.stack == [] then m.out else Flush(Machine(m.out + [Last(m.stack)], Front(m.stack)))
  }

  lemma {:induction false} FeedAllSplit(m: Machine, x: seq<Token>, y: seq<Token>)
    ensures FeedAll(m, x + y) == var n := FeedAll(m, x); if n.None? then None else FeedAll(n.value, y)
    decreases |x|
  {
    if x == [] {
      assert x + y == y;
    } else {
      assert (x + y)[0] == x[0] && (x + y)[1..] == x[1..] + y;
      var n := Feed(m, x[0]);
      if n.Some? { FeedAllSplit(n.value, x[1..], y); }
    }
  }

  function Reversed(s: seq<Token>): (r: seq<Token>)
    decreases |s|
    ensures |r| == |s|
  {
    if s == [] then [] else [Last(s)] + Reversed(Front(s))
  }

  /** What e has put out, and what it has left on the stack, once its text is read. */
  function Emitted(e: Expr): (s: seq<Token>)
  {
    if e.Bin? then Postfix(e.l) + Emitted(e.r) else Postfix(e)
  }

  function Held(e: Expr): (s: seq<Token>)
  {
    if e.Bin? then [e.op] + Held(e.r) else []
  }

  lemma {:induction false} ReversedCons(t: Token, s: seq<Token>)
    ensures Reversed([t] + s) == Reversed(s) + [t]
    decreases |s|
  {
    if s != [] {
      assert Front([t] + s) == [t] + Front(s);
      ReversedCons(t, Front(s));
    }
  }

  /** Together they are the postfix form. */
  lemma {:induction false} EmittedThenHeld(e: Expr)
    ensures Emitted(e) + Reversed(Held(e)) == Postfix(e)
    decreases e
  {
    if e.Bin? {
      EmittedThenHeld(e.r);
      ReversedCons(e.op, Held(e.r));
    }
  }

  lemma {:induction false} HeldRanks(e: Expr, k: nat)
    requires Proper(e) && k < |Held(e)|
    ensures IsOp(Held(e)[k]) && Prec(Held(e)[k]) >= Level(e)
    decreases e
  {
    if k > 0 { HeldRanks(e.r, k - 1); }
  }

  lemma TopOf(below: seq<Token>, h: seq<Token>)
    requires h != []
    ensures below + h != [] && Last(below + h) == Last(h) && Front(below + h) == below + Front(h)
  {
  }

  lemma PutOut(out: seq<Token>, h: seq<Token>)
    requires h != []
    ensures out + [Last(h)] + Reversed(Front(h)) == out + Reversed(h)
  {
  }

  /** An operator that pops all of h leaves what was below. */
  lemma {:induction false} YieldAll(x: Token, out: seq<Token>, below: seq<Token>, h: seq<Token>)
    requires forall k :: 0 <= k < |h| ==> Pops(x, h[k])
    ensures Yield(x, Machine(out, below + h)) == Yield(x, Machine(out + Reversed(h), below))
    decreases |h|
  {
    if h == [] {
      assert below + h == below && out + Reversed(h) == out;
    } else {
      TopOf(below, h);
      PutOut(out, h);
      YieldAll(x, out + [Last(h)], below, Front(h));
    }
  }

  lemma {:induction false} UnwindAll(out: seq<Token>, below: seq<Token>, h: seq<Token>)
    requires forall k :: 0 <= k < |h| ==> !h[k].Open?
    ensures Unwind(Machine(out, below + [Open] + h)) == Some(Machine(out + Reversed(h), below))
    decreases |h|
  {
    if h == [] {
      var m := below + [Open];
      assert m + h == m && Last(m).Open? && Front(m) == below && out + Reversed(h) == out;
    } else {
      TopOf(below + [Open], h);
      PutOut(out, h);
      UnwindAll(out + [Last(h)], below, Front(h));
    }
  }

  lemma {:induction false} FlushAll(out: seq<Token>, h: seq<Token>)
    ensures Flush(Machine(out, h)) == out + Reversed(h)
    decreases |h|
  {
    if h != [] {
      FlushAll(out + [Last(h)], Front(h));
      PutOut(out, h);
    } else {
      assert out + Reversed(h) == out;
    }
  }

  /** An operator of rank p goes on top of the stack without popping anything. */
  predicate Rests(stack: seq<Token>, p: nat)
  {
    stack == [] || Last(stack).Open? || (IsOp(Last(stack)) && Prec(Last(stack)) < p)
  }

  /** Reading the text of e, wherever it may stand. */
  lemma {:induction false} ReadsExpr(e: Expr, out: seq<Token>, stack: seq<Token>)
    requires Proper(e) && Rests(stack, Level(e))
    ensures FeedAll(Machine(out, stack), Infix(e)) == Some(Machine(out + Emitted(e), stack + Held(e)))
    decreases e, 1
  {
    match e {
      case Const(n) =>
        assert FeedAll(Machine(out + [Num(n)], stack), []) == Some(Machine(out + [Num(n)], stack));
        assert stack + [] == stack;
      case Paren(x) => ReadsParen(x, out, stack);
      case Bin(op, l, r) => ReadsBin(e, out, stack);
    }
  }

  lemma {:induction false} ReadsParen(x: Expr, out: seq<Token>, stack: seq<Token>)
    requires Proper(x)
    ensures FeedAll(Machine(out, stack), Infix(Paren(x))) == Some(Machine(out + Postfix(x), stack + []))
    decreases x, 2
  {
    var h := Held(x);
    ReadsExpr(x, out, stack + [Open]);
    EmittedThenHeld(x);
    forall k | 0 <= k < |h| ensures !h[k].Open? { HeldRanks(x, k); }
    UnwindAll(out + Emitted(x), stack, h);
    Regroup(out, Emitted(x), Reversed(h));
    InSequence(Machine(out, stack + [Open]), Infix(x), Close, [], Machine(out + Emitted(x), stack + [Open] + h),
               Machine(out + Postfix(x), stack), Machine(out + Postfix(x), stack));
    assert Infix(x) + [Close] + [] == Infix(x) + [Close];
    InSequence(Machine(out, stack), [], Open, Infix(x) + [Close], Machine(out, stack),
               Machine(out, stack + [Open]), Machine(out + Postfix(x), stack));
    assert [] + [Open] + (Infix(x) + [Close]) == Infix(Paren(x));
    assert stack + [] == stack;
  }

  lemma FeedOne(m: Machine, t: Token)
    ensures FeedAll(m, [t]) == Feed(m, t)
  {
    var n := Feed(m, t);
    if n.Some? { assert FeedAll(n.value, [t][1..]) == n; }
  }

  lemma {:induction false} ReadsBin(e: Expr, out: seq<Token>, stack: seq<Token>)
    requires e.Bin? && Proper(e) && Rests(stack, Level(e))
    ensures FeedAll(Machine(out, stack), Infix(e)) == Some(Machine(out + Emitted(e), stack + Held(e)))
    decreases e, 0
  {
    var op, l, r := e.op, e.l, e.r;
    ReadsExpr(l, out, stack);
    ReadsOp(op, l, out, stack);
    ReadsExpr(r, out + Postfix(l), stack + [op]);
    InSequence(Machine(out, stack), Infix(l), op, Infix(r),
               Machine(out + Emitted(l), stack + Held(l)), Machine(out + Postfix(l), stack + [op]),
               Machine(out + Postfix(l) + Emitted(r), stack + [op] + Held(r)));
    Regroup(out, Postfix(l), Emitted(r));
    Regroup(stack, [op], Held(r));
  }

  lemma Regroup(a: seq<Token>, b: seq<Token>, c: seq<Token>)
    ensures a + b + c == a + (b + c)
  {
  }

  lemma InSequence(m: Machine, x: seq<Token>, t: Token, y: seq<Token>, a: Machine, b: Machine, c: Machine)
    requires FeedAll(m, x) == Some(a) && Feed(a, t) == Some(b) && FeedAll(b, y) == Some(c)
    ensures FeedAll(m, x + [t] + y) == Some(c)
  {
    FeedOne(a, t);
    FeedAllSplit(m, x, [t]);
    FeedAllSplit(m, x + [t], y);
  }

  lemma Stays(op: Token, out: seq<Token>, stack: seq<Token>)
    requires IsOp(op) && Rests(stack, Prec(op))
    ensures Yield(op, Machine(out, stack)) == Machine(out, stack)
  {
    if stack != [] { PopsIsPrecedence(op, Last(stack)); }
  }

  /** The operator after l first sends out what l left on the stack. */
  lemma ReadsOp(op: Token, l: Expr, out: seq<Token>, stack: seq<Token>)
    requires IsOp(op) && Proper(l) && Level(l) >= Prec(op) && Rests(stack, Prec(op))
    ensures Feed(Machine(out + Emitted(l), stack + Held(l)), op) == Some(Machine(out + Postfix(l), stack + [op]))
  {
    var h, p := Held(l), Postfix(l);
    HeldPops(op, l);
    EmittedThenHeld(l);
    Regroup(out, Emitted(l), Reversed(h));
    YieldAll(op, out + Emitted(l), stack, h);
    Stays(op, out + p, stack);
  }

  lemma HeldPops(op: Token, l: Expr)
    requires IsOp(op) && Proper(l) && Level(l) >= Prec(op)
    ensures forall k :: 0 <= k < |Held(l)| ==> Pops(op, Held(l)[k])
  {
    forall k | 0 <= k < |Held(l)| ensures Pops(op, Held(l)[k]) {
      HeldRanks(l, k);
      PopsIsPrecedence(op, Held(l)[k]);
    }
  }

  /** toRPN on the text of an expression gives its postfix form. */
  lemma RpnOfInfix(e: Expr)
    requires Proper(e)
    ensures var m := FeedAll(Machine([], []), Infix(e)); m.Some? && Flush(m.value) == Postfix(e)
  {
    ReadsExpr(e, [], []);
    FlushAll([] + Emitted(e), [] + Held(e));
    EmittedThenHeld(e);
    assert [] + Emitted(e) == Emitted(e) && [] + Held(e) == Held(e);
  }

  // ---- every infix text has a proper tree -----------------------------------------------------

  /** A tree of the infix grammar, grouped anyhow. */
  predicate Grouped(e: Expr)
  {
    match e
    case Const(_) => true
    case Paren(x) => Grouped(x)
    case Bin(op, l, r) => IsOp(op) && Grouped(l) && Grouped(r)
  }

  /** l op r, regrouped. */
  function Join(l: Expr, op: Token, r: Expr): (e: Expr)
    requires IsOp(op) && Proper(l) && Proper(r)
    ensures Proper(e) && Infix(e) == Infix(l) + [op] + Infix(r)
    ensures Level(l) > 1 && Level(r) > 1 && Prec(op) > 1 ==> Level(e) > 1
    decreases r, l
  {
    if Level(r) <= Prec(op) then
      assert Infix(l) + [op] + Infix(r) == (Infix(l) + [op] + Infix(r.l)) + [r.op] + Infix(r.r);
      Join(Join(l, op, r.l), r.op, r.r)
    else if Level(l) >= Prec(op) then Bin(op, l, r)
    else
      assert Infix(l) + [op] + Infix(r) == Infix(l.l) + [l.op] + (Infix(l.r) + [op] + Infix(r));
      Bin(l.op, l.l, Join(l.r, op, r))
  }

  function Regrouped(e: Expr): (r: Expr)
    requires Grouped(e)
    ensures Proper(r) && Infix(r) == Infix(e)
  {
    match e
    case Const(_) => e
    case Paren(x) => Paren(Regrouped(x))
    case Bin(op, l, r) => Join(Regrouped(l), op, Regrouped(r))
  }
}
