/** cal.c's evaluation of postfix cells, and toRPN and caln on their arrays. */
module CalculatorRun {
  import opened Wrappers
  import opened Calculator

  // ---- the meaning of postfix text ---------------------------------------------------------

  /** The value of postfix text with the numbers `st` already read; None if it has none. */
  function Eval(st: seq<int>, s: seq<Token>): (r: Option<int>)
    decreases |s|
  {
    if s == [] then (if |st| == 1 then Some(st[0]) else None)
    else if s[0].Num? then Eval(st + [s[0].n], s[1..])
    else if !IsOp(s[0]) || |st| < 2 then None
    else
      var v := Apply(s[0], st[|st| - 2], st[|st| - 1]);
      if v.None? then None else Eval(st[..|st| - 2] + [v.value], s[1..])
  }

  /** Postfix text of e acts like the number it stands for. */
  lemma {:induction false} EvalPostfix(e: Expr, st: seq<int>, rest: seq<Token>)
    requires Proper(e)
    ensures Eval(st, Postfix(e) + rest) == if Value(e).None? then None else Eval(st + [Value(e).value], rest)
    decreases e
  {
    match e {
      case Const(n) =>
        assert ([Num(n)] + rest)[1..] == rest;
      case Paren(x) => EvalPostfix(x, st, rest);
      case Bin(op, l, r) =>
        var tail := Postfix(r) + ([op] + rest);
        assert Postfix(e) + rest == Postfix(l) + tail;
        EvalPostfix(l, st, tail);
        if Value(l).Some? {
          var x := Value(l).value;
          EvalPostfix(r, st + [x], [op] + rest);
          if Value(r).Some? {
            EvalOp(op, st, x, Value(r).value, rest);
          }
        }
    }
  }

  lemma EvalOp(op: Token, st: seq<int>, x: int, y: int, rest: seq<Token>)
    requires IsOp(op)
    ensures Eval(st + [x] + [y], [op] + rest) == var v := Apply(op, x, y); if v.None? then None else Eval(st + [v.value], rest)
  {
    var s := st + [x] + [y];
    assert ([op] + rest)[1..] == rest;
    assert s[..|s| - 2] == st && s[|s| - 2] == x && s[|s| - 1] == y;
  }

  predicate AllNums(s: seq<Token>)
  {
    forall k :: 0 <= k < |s| ==> s[k].Num?
  }

  /** The numbers read by a run of them. */
  function Ns(s: seq<Token>): (r: seq<int>)
    requires AllNums(s)
    ensures |r| == |s| && forall k :: 0 <= k < |s| ==> r[k] == s[k].n
  {
    seq(|s|, k requires 0 <= k < |s| => s[k].n)
  }

  lemma {:induction false} EvalNums(st: seq<int>, nums: seq<Token>, rest: seq<Token>)
    requires AllNums(nums)
    ensures Eval(st, nums + rest) == Eval(st + Ns(nums), rest)
    decreases |nums|
  {
    if nums == [] {
      assert nums + rest == rest && st + Ns(nums) == st;
    } else {
      assert (nums + rest)[1..] == nums[1..] + rest;
      EvalNums(st + [nums[0].n], nums[1..], rest);
      assert st + [nums[0].n] + Ns(nums[1..]) == st + Ns(nums);
    }
  }

  /** Reducing the leftmost operator keeps the value. */
  lemma ReduceKeeps(nums: seq<Token>, x: int, y: int, op: Token, rest: seq<Token>)
    requires AllNums(nums) && IsOp(op)
    ensures Eval([], nums + [Num(x), Num(y), op] + rest)
            == var v := Apply(op, x, y); if v.None? then None else Eval([], nums + [Num(v.value)] + rest)
  {
    var two := nums + [Num(x), Num(y)];
    assert nums + [Num(x), Num(y), op] + rest == two + ([op] + rest);
    EvalNums([], two, [op] + rest);
    assert [] + Ns(two) == Ns(nums) + [x] + [y];
    EvalOp(op, Ns(nums), x, y, rest);
    var v := Apply(op, x, y);
    if v.Some? {
      var one := nums + [Num(v.value)];
      EvalNums([], one, rest);
      assert [] + Ns(one) == Ns(nums) + [v.value];
    }
  }

  // ---- the reduction, with the cells that are lost ------------------------------------------------

  /** How caln ends: with a number, with an index of -1 into its array, or in a division by zero. */
  datatype Ending = Result(v: int) | OffArray | Trap

  /** A number or an operator; caln looks at nothing else. */
  predicate Live(t: Token)
  {
    t.Num? || IsOp(t)
  }

  predicate AllLive(s: seq<Token>)
  {
    forall k :: 0 <= k < |s| ==> Live(s[k])
  }

  /** The cell cal3 makes of v: the digits of 0 are the empty string. */
  function Cell(v: int): (t: Token)
  {
    if v == 0 then Blank else Num(v)
  }

  /** What is left of v among the numbers and operators. */
  function Kept(v: int): (s: seq<Token>)
  {
    if v == 0 then [] else [Num(v)]
  }

  /** Where the leftmost operator is, or the end. */
  function FirstOp(s: seq<Token>): (m: nat)
    requires AllLive(s)
    ensures m <= |s| && AllNums(s[..m]) && (m < |s| ==> IsOp(s[m]))
  {
    if s == [] || IsOp(s[0]) then 0 else 1 + FirstOp(s[1..])
  }

  lemma {:induction false} FirstOpAt(s: seq<Token>, k: nat)
    requires AllLive(s) && k <= |s| && AllNums(s[..k]) && (k < |s| ==> IsOp(s[k]))
    ensures FirstOp(s) == k
    decreases k
  {
    if k > 0 {
      assert s[..k][0] == s[0];
      assert s[1..][..k - 1] == s[..k][1..];
      FirstOpAt(s[1..], k - 1);
    }
  }

  /** The leftmost operator takes the two numbers before it, over and over. */
  function Reduce(s: seq<Token>): (r: Ending)
    requires AllLive(s)
    decreases |s|
  {
    var m := FirstOp(s);
    if m == |s| then (if s == [] then OffArray else Result(s[..m][m - 1].n))
    else if m < 2 then OffArray
    else
      var v := Apply(s[m], s[..m][m - 2].n, s[..m][m - 1].n);
      if v.None? then Trap else Reduce(s[..m - 2] + Kept(v.value) + s[m + 1..])
  }

  lemma {:induction false} ReduceNext(nums: seq<Token>, x: int, y: int, op: Token, rest: seq<Token>)
    requires AllNums(nums) && IsOp(op) && AllLive(rest)
    ensures AllLive(nums + [Num(x), Num(y), op] + rest)
    ensures Reduce(nums + [Num(x), Num(y), op] + rest)
            == var v := Apply(op, x, y); if v.None? then Trap else Reduce(nums + Kept(v.value) + rest)
  {
    var s, m := nums + [Num(x), Num(y), op] + rest, |nums| + 2;
    assert s[..m] == nums + [Num(x), Num(y)];
    FirstOpAt(s, m);
    assert s[..m - 2] == nums && s[m + 1..] == rest;
  }

  /** How many more numbers than operators. */
  function Surplus(s: seq<Token>): (d: int)
    decreases |s|
  {
    if s == [] then 0 else Surplus(Front(s)) + (if Last(s).Num? then 1 else -1)
  }

  lemma {:induction false} SurplusSplit(x: seq<Token>, y: seq<Token>)
    ensures Surplus(x + y) == Surplus(x) + Surplus(y)
    decreases |y|
  {
    if y == [] {
      assert x + y == x;
    } else {
      TopOf(x, y);
      SurplusSplit(x, Front(y));
    }
  }

  lemma {:induction false} SurplusNums(s: seq<Token>)
    requires AllNums(s)
    ensures Surplus(s) == |s|
    decreases |s|
  {
    if s != [] { SurplusNums(Front(s)); }
  }

  lemma {:induction false} SurplusThree(p: seq<Token>, q: seq<Token>, r: seq<Token>)
    ensures Surplus(p + q + r) == Surplus(p) + Surplus(q) + Surplus(r)
  {
    SurplusSplit(p + q, r);
    SurplusSplit(p, q);
  }

  lemma SurplusKept(v: int)
    ensures Surplus(Kept(v)) == if v == 0 then 0 else 1
  {
    assert Kept(v) != [] ==> Front(Kept(v)) == [];
  }

  lemma SurplusOne(x: Token, y: Token, op: Token)
    requires x.Num? && y.Num? && IsOp(op)
    ensures Surplus([x, y, op]) == 1 && Surplus([x]) == 1 && Surplus([op]) == -1
  {
    assert Front([x]) == [] && Front([op]) == [] && Front([x, y]) == [x] && Front([x, y, op]) == [x, y];
    assert Surplus([x]) == Surplus([]) + 1 && Surplus([op]) == Surplus([]) - 1;
    assert Surplus([x, y]) == Surplus([x]) + 1;
    assert Surplus([x, y, op]) == Surplus([x, y]) - 1;
  }

  /** A reduction takes one from the surplus if its result is 0, and nothing otherwise. */
  lemma {:induction false} SurplusNext(nums: seq<Token>, x: int, y: int, op: Token, v: int, rest: seq<Token>)
    requires IsOp(op)
    ensures Surplus(nums + Kept(v) + rest) == Surplus(nums + [Num(x), Num(y), op] + rest) - if v == 0 then 1 else 0
  {
    SurplusThree(nums, Kept(v), rest);
    SurplusThree(nums, [Num(x), Num(y), op], rest);
    SurplusKept(v);
    SurplusOne(Num(x), Num(y), op);
  }

  /** Text that reduces by one more step, in its parts. */
  lemma {:induction false} StepParts(s: seq<Token>) returns (nums: seq<Token>, x: int, y: int, op: Token, rest: seq<Token>)
    requires AllLive(s) && 2 <= FirstOp(s) < |s|
    ensures AllNums(nums) && IsOp(op) && AllLive(rest) && s == nums + [Num(x), Num(y), op] + rest
  {
    var m := FirstOp(s);
    var t := s[..m];
    nums, x, y, op, rest := s[..m - 2], t[m - 2].n, t[m - 1].n, s[m], s[m + 1..];
    assert nums == t[..m - 2];
    assert t[m - 2] == Num(x) && t[m - 1] == Num(y);
  }

  /** A number comes out only of text with more numbers than operators. */
  lemma {:induction false} NeedsSurplus(s: seq<Token>)
    requires AllLive(s) && Reduce(s).Result?
    ensures Surplus(s) >= 1
    decreases |s|
  {
    var m := FirstOp(s);
    if m == |s| {
      assert s[..m] == s;
      SurplusNums(s);
    } else {
      var nums, x, y, op, rest := StepParts(s);
      ReduceNext(nums, x, y, op, rest);
      var v := Apply(op, x, y).value;
      NeedsSurplus(nums + Kept(v) + rest);
      SurplusNext(nums, x, y, op, v, rest);
    }
  }

  /** A number that comes out of text with a surplus of one is the value of the text. */
  lemma {:induction false} NeverWrong(s: seq<Token>)
    requires AllLive(s) && Reduce(s).Result? && Surplus(s) == 1
    ensures Eval([], s) == Some(Reduce(s).v)
    decreases |s|
  {
    var m := FirstOp(s);
    if m == |s| {
      assert s[..m] == s;
      SurplusNums(s);
      EvalNums([], s, []);
      assert s + [] == s && [] + Ns(s) == Ns(s);
    } else {
      var nums, x, y, op, rest := StepParts(s);
      NextKeeps(nums, x, y, op, rest);
      NeverWrong(nums + [Num(Apply(op, x, y).value)] + rest);
    }
  }

  lemma {:induction false} NextKeeps(nums: seq<Token>, x: int, y: int, op: Token, rest: seq<Token>)
    requires AllNums(nums) && IsOp(op) && AllLive(rest) && AllLive(nums + [Num(x), Num(y), op] + rest)
    requires Reduce(nums + [Num(x), Num(y), op] + rest).Result? && Surplus(nums + [Num(x), Num(y), op] + rest) == 1
    ensures Apply(op, x, y).Some?
    ensures var t := nums + [Num(Apply(op, x, y).value)] + rest;
            && AllLive(t) && Reduce(t) == Reduce(nums + [Num(x), Num(y), op] + rest) && Surplus(t) == 1
            && Eval([], t) == Eval([], nums + [Num(x), Num(y), op] + rest)
  {
    ReduceNext(nums, x, y, op, rest);
    var v := Apply(op, x, y).value;
    NeedsSurplus(nums + Kept(v) + rest);
    SurplusNext(nums, x, y, op, v, rest);
    ReduceKeeps(nums, x, y, op, rest);
  }

  /** Every operator of e has a value, and one other than 0. */
  predicate NoZero(e: Expr)
  {
    match e
    case Const(_) => true
    case Paren(x) => NoZero(x)
    case Bin(_, l, r) => NoZero(l) && NoZero(r) && Value(e).Some? && Value(e).value != 0
  }

  lemma {:induction false} NoZeroHasValue(e: Expr)
    requires NoZero(e)
    ensures Value(e).Some?
  {
    if e.Paren? { NoZeroHasValue(e.e); }
  }

  lemma {:induction false} PostfixLive(e: Expr)
    requires Proper(e)
    ensures AllLive(Postfix(e)) && Surplus(Postfix(e)) == 1
    decreases e
  {
    match e {
      case Const(n) => SurplusOne(Num(n), Num(n), Plus);
      case Paren(x) => PostfixLive(x);
      case Bin(op, l, r) =>
        PostfixLive(l);
        PostfixLive(r);
        SurplusThree(Postfix(l), Postfix(r), [op]);
        SurplusOne(Num(0), Num(0), op);
    }
  }

  /** nums, the parts of l op r, and the rest. */
  lemma {:induction false} PostfixParts(nums: seq<Token>, l: Expr, r: Expr, op: Token, x: int, rest: seq<Token>)
    requires Proper(l) && Proper(r) && IsOp(op) && AllNums(nums) && AllLive(rest)
    ensures var e := Bin(op, l, r); nums + Postfix(e) + rest == nums + Postfix(l) + (Postfix(r) + [op] + rest)
    ensures AllLive(Postfix(r) + [op] + rest) && AllLive([op] + rest) && AllNums(nums + [Num(x)])
    ensures nums + [Num(x)] + (Postfix(r) + [op] + rest) == (nums + [Num(x)]) + Postfix(r) + ([op] + rest)
  {
    PostfixLive(r);
  }

  lemma TwoThenOp(nums: seq<Token>, x: int, y: int, op: Token, rest: seq<Token>)
    ensures nums + [Num(x)] + [Num(y)] + ([op] + rest) == nums + [Num(x), Num(y), op] + rest
  {
  }

  /** Without a 0 on the way the text of e acts like its value, wherever it stands. */
  lemma {:induction false} ReducePostfix(e: Expr, nums: seq<Token>, rest: seq<Token>)
    requires Proper(e) && NoZero(e) && AllNums(nums) && AllLive(rest)
    ensures Value(e).Some? && AllLive(nums + Postfix(e) + rest)
    ensures Reduce(nums + Postfix(e) + rest) == Reduce(nums + [Num(Value(e).value)] + rest)
    decreases e
  {
    NoZeroHasValue(e);
    PostfixLive(e);
    match e {
      case Const(n) =>
      case Paren(x) => ReducePostfix(x, nums, rest);
      case Bin(op, l, r) =>
        var x, y := Value(l).value, Value(r).value;
        PostfixParts(nums, l, r, op, x, rest);
        ReducePostfix(l, nums, Postfix(r) + [op] + rest);
        ReducePostfix(r, nums + [Num(x)], [op] + rest);
        TwoThenOp(nums, x, y, op, rest);
        ReduceNext(nums, x, y, op, rest);
    }
  }

  /** With a 0 on the way, or no value, and nothing to spare, no number comes out. */
  lemma {:induction false} ZeroOnTheWay(e: Expr, nums: seq<Token>, rest: seq<Token>)
    requires Proper(e) && !NoZero(e) && AllNums(nums) && AllLive(rest)
    ensures AllLive(nums + Postfix(e) + rest)
    ensures Surplus(nums + Postfix(e) + rest) <= 1 ==> !Reduce(nums + Postfix(e) + rest).Result?
    decreases e
  {
    PostfixLive(e);
    match e {
      case Const(_) =>
      case Paren(x) => ZeroOnTheWay(x, nums, rest);
      case Bin(op, l, r) =>
        var tail := Postfix(r) + [op] + rest;
        PostfixParts(nums, l, r, op, 0, rest);
        if !NoZero(l) {
          ZeroOnTheWay(l, nums, tail);
        } else {
          ReducePostfix(l, nums, tail);
          PostfixLive(l);
          var x := Value(l).value;
          SurplusThree(nums, Postfix(l), tail);
          SurplusThree(nums, [Num(x)], tail);
          SurplusOne(Num(x), Num(x), op);
          PostfixParts(nums, l, r, op, x, rest);
          if !NoZero(r) {
            ZeroOnTheWay(r, nums + [Num(x)], [op] + rest);
          } else {
            ZeroHere(op, nums, x, r, rest);
          }
        }
    }
  }

  lemma {:induction false} ZeroHere(op: Token, nums: seq<Token>, x: int, r: Expr, rest: seq<Token>)
    requires Proper(r) && NoZero(r) && IsOp(op) && AllNums(nums) && AllLive(rest) && AllNums(nums + [Num(x)])
    requires Value(r).Some? ==> Apply(op, x, Value(r).value) in {None, Some(0)}
    ensures AllLive(nums + [Num(x)] + Postfix(r) + ([op] + rest))
    ensures Surplus(nums + [Num(x)] + Postfix(r) + ([op] + rest)) <= 1 ==> !Reduce(nums + [Num(x)] + Postfix(r) + ([op] + rest)).Result?
  {
    ReducePostfix(r, nums + [Num(x)], [op] + rest);
    PostfixLive(r);
    var y := Value(r).value;
    SurplusThree(nums + [Num(x)], Postfix(r), [op] + rest);
    SurplusThree(nums + [Num(x)], [Num(y)], [op] + rest);
    SurplusOne(Num(y), Num(y), op);
    TwoThenOp(nums, x, y, op, rest);
    ReduceNext(nums, x, y, op, rest);
    SurplusNext(nums, x, y, op, 0, rest);
    if Apply(op, x, y) == Some(0) && Reduce(nums + Kept(0) + rest).Result? {
      NeedsSurplus(nums + Kept(0) + rest);
    }
  }

  /** caln stays inside its array and gives a number if and only if no operator of the expression
      has the value 0 or divides by 0, and the number is then the value. */
  lemma {:induction false} CalnExact(e: Expr)
    requires Proper(e)
    ensures AllLive(Postfix(e)) && (Reduce(Postfix(e)).Result? <==> NoZero(e))
    ensures NoZero(e) ==> Value(e) == Some(Reduce(Postfix(e)).v)
  {
    PostfixLive(e);
    assert [] + Postfix(e) + [] == Postfix(e);
    if NoZero(e) {
      ReducePostfix(e, [], []);
      var one := [Num(Value(e).value)];
      assert [] + one + [] == one;
      assert one[..1] == one;
      FirstOpAt(one, 1);
    } else {
      ZeroOnTheWay(e, [], []);
    }
  }

  function Difference(n: nat): (e: Expr)
    ensures Proper(e) && Value(e) == Some(0) && Postfix(e) == [Num(n), Num(n), Minus]
  {
    Bin(Minus, Const(n), Const(n))
  }

  /** n - n has the value 0; nothing of it is left, and caln runs off its array. */
  lemma {:induction false} ZeroRunsOff(n: nat, rest: seq<Token>)
    requires AllLive(rest)
    ensures AllLive(Postfix(Difference(n)) + rest) && Reduce(Postfix(Difference(n)) + rest) == Reduce(rest)
    ensures rest == [] ==> Reduce(rest) == OffArray
  {
    var p := [Num(n), Num(n), Minus];
    ReduceNext([], n, n, Minus, rest);
    assert [] + p + rest == p + rest && [] + Kept(0) + rest == rest;
  }

  /** And (n - n) + k has the value k, but caln runs off its array. */
  lemma {:induction false} SumRunsOff(n: nat, k: nat)
    ensures var e := Bin(Plus, Paren(Difference(n)), Const(k));
            Proper(e) && Value(e) == Some(k) && AllLive(Postfix(e)) && Reduce(Postfix(e)) == OffArray
  {
    var two := [Num(k), Plus];
    ZeroRunsOff(n, two);
    assert Postfix(Bin(Plus, Paren(Difference(n)), Const(k))) == Postfix(Difference(n)) + two;
    assert two[..1] == [Num(k)];
    FirstOpAt(two, 1);
  }

  // ---- cells with blanks ----------------------------------------------------------------------

  /** The cells that hold a number or an operator. */
  function Compact(c: seq<Token>): (r: seq<Token>)
    decreases |c|
    ensures AllLive(r)
  {
    if c == [] then [] else Compact(Front(c)) + (if Live(Last(c)) then [Last(c)] else [])
  }

  lemma {:induction false} CompactSplit(x: seq<Token>, y: seq<Token>)
    ensures Compact(x + y) == Compact(x) + Compact(y)
    decreases |y|
  {
    if y == [] {
      assert x + y == x;
    } else {
      TopOf(x, y);
      CompactSplit(x, Front(y));
      Regroup(Compact(x), Compact(Front(y)), if Live(Last(y)) then [Last(y)] else []);
    }
  }

  lemma CompactOne(t: Token)
    ensures Compact([t]) == if Live(t) then [t] else []
  {
    assert Front([t]) == [];
  }

  lemma {:induction false} CompactFull(c: seq<Token>, n: nat)
    requires n <= |c| && (forall k :: 0 <= k < n ==> Live(c[k])) && (forall k :: n <= k < |c| ==> !Live(c[k]))
    ensures Compact(c) == c[..n]
    decreases |c|
  {
    if c != [] {
      if n == |c| {
        CompactFull(Front(c), n - 1);
        assert c[..n] == Front(c)[..n - 1] + [Last(c)];
      } else {
        CompactFull(Front(c), n);
        assert c[..n] == Front(c)[..n];
      }
    }
  }

  /** One more cell. */
  lemma CompactNext(c: seq<Token>, i: nat)
    requires i < |c|
    ensures Compact(c[..i + 1]) == Compact(c[..i]) + if Live(c[i]) then [c[i]] else []
  {
    assert Front(c[..i + 1]) == c[..i];
  }

  /** The cells a1 and a2 are the last two numbers before cell m. */
  ghost predicate LastTwo(c: seq<Token>, a1: nat, a2: nat, m: nat)
  {
    && a1 < a2 < m < |c| && c[a1].Num? && c[a2].Num?
    && Compact(c[..m]) == Compact(c[..a2]) + [c[a2]] && Compact(c[..a2]) == Compact(c[..a1]) + [c[a1]]
  }

  /** Nothing live is between position i and position j. */
  lemma NoneBetween(c: seq<Token>, i: nat, j: nat)
    requires i < j <= |c| && Live(c[i]) && Compact(c[..j]) == Compact(c[..i]) + [c[i]]
    ensures Compact(c[i + 1..j]) == []
  {
    assert c[..j] == c[..i + 1] + c[i + 1..j];
    CompactSplit(c[..i + 1], c[i + 1..j]);
    CompactNext(c, i);
  }

  /** The cells before and after a live one. */
  lemma CompactAt(c: seq<Token>, m: nat)
    requires m < |c| && Live(c[m])
    ensures Compact(c) == Compact(c[..m]) + [c[m]] + Compact(c[m + 1..])
  {
    assert c == c[..m + 1] + c[m + 1..];
    CompactSplit(c[..m + 1], c[m + 1..]);
    CompactNext(c, m);
  }

  lemma CellsBefore(c: seq<Token>, a1: nat, a2: nat, m: nat)
    requires LastTwo(c, a1, a2, m) && Live(c[m])
    ensures Compact(c) == Compact(c[..a1]) + [c[a1], c[a2], c[m]] + Compact(c[m + 1..])
  {
    CompactAt(c, m);
    assert Compact(c[..a1]) + [c[a1]] + [c[a2]] + [c[m]] == Compact(c[..a1]) + [c[a1], c[a2], c[m]];
  }

  lemma CellsAfter(c: seq<Token>, a1: nat, a2: nat, m: nat, v: int)
    requires LastTwo(c, a1, a2, m)
    ensures Compact(c[a1 := Cell(v)][a2 := Blank][m := Blank]) == Compact(c[..a1]) + Kept(v) + Compact(c[m + 1..])
  {
    NoneBetween(c, a1, a2);
    NoneBetween(c, a2, m);
    CellsParts(c, a1, a2, m, v);
    CompactFive(c[..a1], v, c[a1 + 1..a2], c[a2 + 1..m], c[m + 1..]);
  }

  lemma CellsParts(c: seq<Token>, a1: nat, a2: nat, m: nat, v: int)
    requires a1 < a2 < m < |c|
    ensures c[a1 := Cell(v)][a2 := Blank][m := Blank]
            == c[..a1] + [Cell(v)] + (c[a1 + 1..a2] + [Blank]) + (c[a2 + 1..m] + [Blank]) + c[m + 1..]
  {
  }

  lemma CompactFive(p: seq<Token>, v: int, q: seq<Token>, r: seq<Token>, s: seq<Token>)
    requires Compact(q) == [] && Compact(r) == []
    ensures Compact(p + [Cell(v)] + (q + [Blank]) + (r + [Blank]) + s) == Compact(p) + Kept(v) + Compact(s)
  {
    var t, u, w := Cell(v), q + [Blank], r + [Blank];
    CompactOne(Blank);
    CompactSkip(q, [Blank]);
    CompactSkip(r, [Blank]);
    CompactOne(t);
    CompactSplit(p, [t]);
    CompactSkip(p + [t], u);
    CompactSkip(p + [t] + u, w);
    CompactSplit(p + [t] + u + w, s);
  }

  lemma CompactSkip(p: seq<Token>, u: seq<Token>)
    requires Compact(u) == []
    ensures Compact(p + u) == Compact(p)
  {
    CompactSplit(p, u);
  }

  // ---- caln ------------------------------------------------------------------------------------

  /** What caln's loop knows at cell i. */
  ghost predicate Scanned(c: seq<Token>, i: nat, a1: int, a2: int)
  {
    && i <= |c| && AllNums(Compact(c[..i])) && -1 <= a1 <= a2 < i && (a1 == a2 ==> a1 == -1)
    && (a2 == -1 ==> Compact(c[..i]) == [])
    && (a2 >= 0 ==> c[a2].Num? && Compact(c[..i]) == Compact(c[..a2]) + [c[a2]])
    && (a2 >= 0 && a1 == -1 ==> Compact(c[..a2]) == [])
    && (a1 >= 0 ==> c[a1].Num? && Compact(c[..a2]) == Compact(c[..a1]) + [c[a1]])
  }

  lemma ScanStep(c: seq<Token>, i: nat, a1: int, a2: int)
    requires Scanned(c, i, a1, a2) && i < |c| && !IsOp(c[i])
    ensures if c[i].Num? then Scanned(c, i + 1, a2, i) else Scanned(c, i + 1, a1, a2)
  {
    CompactNext(c, i);
  }

  /** The scan has reached the end without an operator. */
  lemma {:induction false} ScannedAll(c: seq<Token>, a1: int, a2: int)
    requires Scanned(c, |c|, a1, a2)
    ensures Reduce(Compact(c)) == if a2 == -1 then OffArray else Result(c[a2].n)
  {
    assert c[..|c|] == c;
    var s := Compact(c);
    assert s[..|s|] == s;
    FirstOpAt(s, |s|);
  }

  /** It has stopped at an operator with fewer than two numbers before it. */
  lemma {:induction false} TooFew(c: seq<Token>, m: nat, a1: int, a2: int)
    requires Scanned(c, m, a1, a2) && m < |c| && IsOp(c[m]) && a1 == -1
    ensures Reduce(Compact(c)) == OffArray
  {
    CompactAt(c, m);
    var s, k := Compact(c), |Compact(c[..m])|;
    assert s[..k] == Compact(c[..m]) && s[k] == c[m];
    FirstOpAt(s, k);
  }

  /** It has stopped at an operator with two: one reduction of the cells. */
  lemma {:induction false} Reduces(c: seq<Token>, m: nat, a1: int, a2: int)
    requires Scanned(c, m, a1, a2) && m < |c| && IsOp(c[m]) && a1 >= 0
    ensures var v := Apply(c[m], c[a1].n, c[a2].n);
            if v.None? then Reduce(Compact(c)) == Trap
            else var d := c[a1 := Cell(v.value)][a2 := Blank][m := Blank];
                 Reduce(Compact(d)) == Reduce(Compact(c)) && |Compact(d)| < |Compact(c)|
  {
    CellsBefore(c, a1, a2, m);
    var nums := Compact(c[..a1]);
    assert AllNums(nums) by {
      forall k | 0 <= k < |nums| ensures nums[k].Num? { assert Compact(c[..m])[k] == nums[k]; }
    }
    assert c[a1] == Num(c[a1].n) && c[a2] == Num(c[a2].n);
    ReduceNext(nums, c[a1].n, c[a2].n, c[m], Compact(c[m + 1..]));
    var v := Apply(c[m], c[a1].n, c[a2].n);
    if v.Some? { CellsAfter(c, a1, a2, m, v.value); }
  }

  /** caln, on any cells: the reduction of the numbers and operators in them. */
  method Caln(src: array<Token>) returns (r: Ending)
    modifies src
    ensures r == Reduce(old(Compact(src[..])))
    decreases |Compact(src[..])|
  {
    ghost var c := src[..];
    var i, a1, a2 := 0, -1, -1;
    while i < src.Length && !IsOp(src[i])
      invariant 0 <= i <= src.Length && Scanned(c, i, a1, a2) && src[..] == c
    {
      ScanStep(c, i, a1, a2);
      if src[i].Num? {
        a1, a2 := a2, i;
      }
      i := i + 1;
    }
    if i == src.Length {
      ScannedAll(c, a1, a2);
      return if a2 == -1 then OffArray else Result(src[a2].n);
    }
    if a1 == -1 {
      TooFew(c, i, a1, a2);
      return OffArray;
    }
    Reduces(c, i, a1, a2);
    var v := Apply(src[i], src[a1].n, src[a2].n);
    if v.None? {
      return Trap;
    }
    src[a1] := Cell(v.value);
    src[a2] := Blank;
    src[i] := Blank;
    assert src[..] == c[a1 := Cell(v.value)][a2 := Blank][i := Blank];
    r := Caln(src);
  }

  // ---- toRPN ------------------------------------------------------------------------------------

  /** The arrays hold the machine m: its output, blanks after it, and its stack above the blank
      cell that ends it. */
  ghost predicate Represents(ret: seq<Token>, stack: seq<Token>, t2: nat, t1: nat, m: Machine)
  {
    && 1 <= t1 <= |stack| && t2 <= |ret| && stack[0].Blank?
    && ret[..t2] == m.out && stack[1..t1] == m.stack
    && (forall k :: t2 <= k < |ret| ==> ret[k].Blank?)
  }

  /** ret[t2++] = stack[--t1]. */
  method PopToOutput(ret: array<Token>, stack: array<Token>, t2: nat, t1: nat, ghost m: Machine) returns (u2: nat, u1: nat)
    requires ret != stack && Represents(ret[..], stack[..], t2, t1, m) && t1 > 1 && t2 < ret.Length
    modifies ret
    ensures m.stack != [] && u2 == t2 + 1 && u1 == t1 - 1
    ensures Represents(ret[..], stack[..], u2, u1, Machine(m.out + [Last(m.stack)], Front(m.stack)))
  {
    ghost var r, s := ret[..], stack[..];
    assert Last(m.stack) == s[1..t1][t1 - 2] == stack[t1 - 1];
    ret[t2] := stack[t1 - 1];
    u2, u1 := t2 + 1, t1 - 1;
    assert ret[..u2] == r[..t2] + [s[t1 - 1]];
    assert stack[..] == s && s[1..u1] == Front(s[1..t1]);
  }

  /** The loop of the closing parenthesis. */
  method PopToOpen(ret: array<Token>, stack: array<Token>, x2: nat, x1: nat, ghost m0: Machine) returns (t2: nat, t1: nat)
    requires ret != stack && Represents(ret[..], stack[..], x2, x1, m0) && Unwind(m0).Some? && x1 + x2 <= ret.Length
    modifies ret
    ensures Represents(ret[..], stack[..], t2, t1, Unwind(m0).value)
  {
    t2, t1 := x2, x1;
    ghost var m := m0;
    assert m.stack != [];
    while !stack[t1 - 1].Open?
      invariant Represents(ret[..], stack[..], t2, t1, m) && Unwind(m) == Unwind(m0) && m.stack != [] && t1 + t2 <= ret.Length
      decreases t1
    {
      assert Last(m.stack) == stack[..][1..t1][t1 - 2];
      ghost var next := Machine(m.out + [Last(m.stack)], Front(m.stack));
      t2, t1 := PopToOutput(ret, stack, t2, t1, m);
      m := next;
    }
    assert Last(m.stack) == stack[..][1..t1][t1 - 2];
    t1 := t1 - 1;
    assert stack[..][1..t1] == Front(m.stack);
  }

  /** The loop of an operator. */
  method PopHigher(ret: array<Token>, stack: array<Token>, x2: nat, x1: nat, op: Token, ghost m0: Machine) returns (t2: nat, t1: nat)
    requires ret != stack && Represents(ret[..], stack[..], x2, x1, m0) && x1 + x2 <= ret.Length && IsOp(op)
    modifies ret
    ensures Represents(ret[..], stack[..], t2, t1, Yield(op, m0))
  {
    t2, t1 := x2, x1;
    ghost var m := m0;
    var c := Precede(op, stack[t1 - 1]);
    while c == Less || c == Equal
      invariant Represents(ret[..], stack[..], t2, t1, m) && Yield(op, m) == Yield(op, m0) && t1 + t2 <= ret.Length
      invariant c == Precede(op, stack[t1 - 1])
      decreases t1
    {
      assert t1 > 1;
      assert Last(m.stack) == stack[..][1..t1][t1 - 2];
      ghost var next := Machine(m.out + [Last(m.stack)], Front(m.stack));
      t2, t1 := PopToOutput(ret, stack, t2, t1, m);
      m := next;
      c := Precede(op, stack[t1 - 1]);
    }
    if m.stack != [] { assert Last(m.stack) == stack[..][1..t1][t1 - 2]; }
  }

  /** stack[t1++] = t. */
  method Push(ret: array<Token>, stack: array<Token>, t2: nat, t1: nat, t: Token, ghost m: Machine) returns (u1: nat)
    requires ret != stack && Represents(ret[..], stack[..], t2, t1, m) && t1 < stack.Length
    modifies stack
    ensures u1 == t1 + 1 && Represents(ret[..], stack[..], t2, u1, Machine(m.out, m.stack + [t]))
  {
    ghost var r, s := ret[..], stack[..];
    stack[t1] := t;
    u1 := t1 + 1;
    assert ret[..] == r && stack[..][1..u1] == s[1..t1] + [t];
  }

  /** One turn of toRPN's loop. */
  method Turn(ret: array<Token>, stack: array<Token>, x2: nat, x1: nat, t: Token, ghost m: Machine) returns (t2: nat, t1: nat)
    requires ret != stack && Represents(ret[..], stack[..], x2, x1, m) && x1 + x2 < ret.Length == stack.Length
    requires !t.Blank? && Feed(m, t).Some?
    modifies ret, stack
    ensures Represents(ret[..], stack[..], t2, t1, Feed(m, t).value)
  {
    t2, t1 := x2, x1;
    if t.Num? {
      ghost var r, s := ret[..], stack[..];
      ret[t2] := t;
      t2 := t2 + 1;
      assert stack[..] == s && ret[..t2] == r[..x2] + [t];
    } else if t.Open? {
      t1 := Push(ret, stack, t2, t1, t, m);
    } else if t.Close? {
      t2, t1 := PopToOpen(ret, stack, t2, t1, m);
    } else {
      t2, t1 := PopHigher(ret, stack, t2, t1, t, m);
      t1 := Push(ret, stack, t2, t1, t, Yield(t, m));
    }
  }

  lemma {:induction false} FeedMiddle(m0: Machine, x: seq<Token>, t: Token, y: seq<Token>)
    requires FeedAll(m0, x + [t] + y).Some?
    ensures var m := FeedAll(m0, x); m.Some? && Feed(m.value, t).Some? && FeedAll(m0, x + [t]) == Feed(m.value, t)
  {
    FeedAllSplit(m0, x + [t], y);
    FeedAllSplit(m0, x, [t]);
    var m := FeedAll(m0, x);
    if m.Some? { FeedOne(m.value, t); }
  }

  /** The machine after i tokens can read the next one. */
  lemma {:induction false} FeedNext(s: seq<Token>, i: nat)
    requires i < |s| && FeedAll(Machine([], []), s).Some?
    ensures var m := FeedAll(Machine([], []), s[..i]); m.Some? && Feed(m.value, s[i]).Some?
                                                       && FeedAll(Machine([], []), s[..i + 1]) == Feed(m.value, s[i])
  {
    assert s == s[..i] + [s[i]] + s[i + 1..];
    assert s[..i + 1] == s[..i] + [s[i]];
    FeedMiddle(Machine([], []), s[..i], s[i], s[i + 1..]);
  }

  /** toRPN on n tokens: whatever the parentheses, so long as each closing one has its opening
      one.  The result is a fresh array of cells, blank after the output. */
  method ToRPN(src: seq<Token>, ghost n: nat) returns (ret: array<Token>)
    requires |src| == MAXCOUNT && n < MAXCOUNT && (forall k :: 0 <= k < n ==> !src[k].Blank?) && (forall k :: n <= k < MAXCOUNT ==> src[k].Blank?)
    requires FeedAll(Machine([], []), src[..n]).Some?
    ensures fresh(ret) && ret.Length == MAXCOUNT
    ensures var out := Flush(FeedAll(Machine([], []), src[..n]).value);
            |out| <= MAXCOUNT && ret[..|out|] == out && forall k :: |out| <= k < MAXCOUNT ==> ret[k].Blank?
  {
    ret := new Token[MAXCOUNT](k => Blank);
    var stack := new Token[MAXCOUNT](k => Blank);
    stack[0] := src[MAXCOUNT - 1];
    var i: nat, t1: nat, t2: nat := 0, 1, 0;
    ghost var m := Machine([], []);
    assert src[..0] == [];
    while !src[i].Blank?
      invariant 0 <= i <= n && t1 + t2 <= i + 1
      invariant Represents(ret[..], stack[..], t2, t1, m) && FeedAll(Machine([], []), src[..i]) == Some(m)
      decreases n - i
    {
      assert src[..n][..i] == src[..i] && src[..n][..i + 1] == src[..i + 1];
      FeedNext(src[..n], i);
      ghost var next := Feed(m, src[i]).value;
      t2, t1 := Turn(ret, stack, t2, t1, src[i], m);
      m := next;
      i := i + 1;
    }
    assert i == n;
    t2, m := Drain(ret, stack, t2, t1, m);
  }

  /** The last loop of toRPN. */
  method Drain(ret: array<Token>, stack: array<Token>, x2: nat, x1: nat, ghost m0: Machine) returns (t2: nat, ghost m: Machine)
    requires ret != stack && Represents(ret[..], stack[..], x2, x1, m0) && x1 + x2 <= ret.Length
    modifies ret
    ensures t2 <= ret.Length && ret[..t2] == Flush(m0) && forall k :: t2 <= k < ret.Length ==> ret[k].Blank?
  {
    t2, m := x2, m0;
    var t1: nat := x1;
    while t1 > 1
      invariant Represents(ret[..], stack[..], t2, t1, m) && Flush(m) == Flush(m0) && t1 + t2 <= ret.Length
      decreases t1
    {
      ghost var next := Machine(m.out + [Last(m.stack)], Front(m.stack));
      t2, t1 := PopToOutput(ret, stack, t2, t1, m);
      m := next;
    }
    assert m.stack == [];
    assert forall k :: t2 <= k < ret.Length ==> ret[..][k].Blank?;
  }

  /** toRPN then caln on the text of an expression. */
  method CalculateProper(src: seq<Token>, ghost e: Expr) returns (r: Ending)
    requires Proper(e) && |Infix(e)| < MAXCOUNT && |src| == MAXCOUNT
    requires src[..|Infix(e)|] == Infix(e) && forall k :: |Infix(e)| <= k < MAXCOUNT ==> src[k].Blank?
    ensures r.Result? <==> NoZero(e)
    ensures r.Result? ==> Value(e) == Some(r.v)
  {
    ghost var n := |Infix(e)|;
    RpnOfInfix(e);
    forall k | 0 <= k < n ensures !src[k].Blank? {
      InfixHasNoBlank(e, k);
      assert src[..n][k] == src[k];
    }
    var ret := ToRPN(src, n);
    ghost var out := Postfix(e);
    CalnExact(e);
    forall k | 0 <= k < |out| ensures Live(ret[..][k]) {
      assert ret[..|out|][k] == out[k];
    }
    CompactFull(ret[..], |out|);
    assert ret[..][..|out|] == out;
    r := Caln(ret);
  }

  /** cal, on any infix text: a number comes out exactly if no operator has the value 0 or divides
      by 0, in the one grouping that usual precedence and left association give the text, and it is
      the value of that grouping. */
  method Calculate(src: seq<Token>, ghost t: Expr) returns (r: Ending)
    requires Grouped(t) && |Infix(t)| < MAXCOUNT && |src| == MAXCOUNT
    requires src[..|Infix(t)|] == Infix(t) && forall k :: |Infix(t)| <= k < MAXCOUNT ==> src[k].Blank?
    ensures forall e :: Proper(e) && Infix(e) == Infix(t) ==> (r.Result? <==> NoZero(e)) && (r.Result? ==> Value(e) == Some(r.v) && Means(e, r.v))
    ensures Proper(Regrouped(t)) && Infix(Regrouped(t)) == Infix(t)
  {
    ghost var p := Regrouped(t);
    r := CalculateProper(src, p);
    forall e | Proper(e) && Infix(e) == Infix(t)
      ensures Value(e) == Value(p) && (NoZero(e) <==> NoZero(p)) && (r.Result? ==> Means(e, r.v))
    {
      OneReading(e, p);
      if r.Result? { ValueMeans(e, r.v); }
    }
  }

  lemma {:induction false} InfixHasNoBlank(e: Expr, k: nat)
    requires Proper(e) && k < |Infix(e)|
    ensures !Infix(e)[k].Blank?
    decreases e
  {
    match e {
      case Const(_) =>
      case Paren(x) => if 0 < k <= |Infix(x)| { InfixHasNoBlank(x, k - 1); }
      case Bin(op, l, r) =>
        if k < |Infix(l)| { InfixHasNoBlank(l, k); }
        else if k > |Infix(l)| { InfixHasNoBlank(r, k - |Infix(l)| - 1); }
    }
  }

  /** The text determines the value: two proper trees with one text have one postfix form. */
  lemma OneReading(e: Expr, f: Expr)
    requires Proper(e) && Proper(f) && Infix(e) == Infix(f)
    ensures Postfix(e) == Postfix(f) && Value(e) == Value(f) && (NoZero(e) <==> NoZero(f))
  {
    CalnExact(e);
    CalnExact(f);
    RpnOfInfix(e);
    RpnOfInfix(f);
    EvalPostfix(e, [], []);
    EvalPostfix(f, [], []);
    assert Postfix(e) + [] == Postfix(f) + [];
  }
}
