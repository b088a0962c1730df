/** Writing commands of sh.c, with parentheses where the grammar needs them and any blanks between
    the tokens, and reading them back. */
module ShellRoundTrip {
  import opened ShellParser

  type Text = seq<char>
  type Tree = Cmd<Text>

  /** A word the shell can read: no white space, no symbol. */
  predicate WordOk(w: Text)
  {
    w != [] && forall k :: 0 <= k < |w| ==> Plain(w[k])
  }

  /** The words can be read, no argument starts with a parenthesis, and there are at most
      MAXARGS - 1 of them. */
  predicate Good(t: Tree)
  {
    match t
    case Exec(argv) =>
      |argv| < MAXARGS && forall k :: 0 <= k < |argv| ==> WordOk(argv[k]) && argv[k][0] != '(' && argv[k][0] != ')'
    case Redir(c, file, _) => Good(c) && WordOk(file)
    case Pipe(l, r) => Good(l) && Good(r)
    case List(l, r) => Good(l) && Good(r)
    case Back(c) => Good(c)
  }

  /** The grammar level of a command: 0 simple or redirected, 1 pipe, 2 background, 3 list. */
  function Rank(t: Tree): (r: nat)
  {
    match t
    case Exec(_) => 0
    case Redir(_, _, _) => 0
    case Pipe(_, _) => 1
    case Back(_) => 2
    case List(_, _) => 3
  }

  function ModeText(m: Mode): (w: Text)
  {
    if m.ReadOnly? then "<" else ">"
  }

  /** The tokens of t where the grammar expects a command of the given level. */
  function Spell(t: Tree, level: nat): (r: seq<Text>)
    decreases t, 1
  {
    if level < Rank(t) then ["("] + Body(t) + [")"] else Body(t)
  }

  function Body(t: Tree): (r: seq<Text>)
    decreases t, 0
  {
    match t
    case Exec(argv) => argv
    case Redir(c, file, m) => Spell(c, 0) + [ModeText(m), file]
    case Pipe(l, r) => Spell(l, 0) + ["|"] + Spell(r, 1)
    case Back(c) => Spell(c, 2) + ["&"]
    case List(l, r) => Spell(l, 2) + [";"] + Spell(r, 3)
  }

  function Spaced(items: seq<Text>): (s: seq<char>)
  {
    if items == [] then [] else items[0] + " " + Spaced(items[1..])
  }

  /** The printed command. */
  function Print(t: Tree): (s: seq<char>)
  {
    Spaced(Spell(t, 3))
  }

  // ---- reading the tokens ----------------------------------------------------------------------

  /** The text is the item; > may be doubled. */
  predicate Renders(text: Text, item: Text)
  {
    text == item || (item == ">" && text == ">>")
  }

  predicate Says(x: seq<Tok>, items: seq<Text>)
  {
    |x| == |items| && forall k :: 0 <= k < |x| ==> Renders(x[k].text, items[k])
  }

  lemma AsItIs(text: Text, item: Text)
    requires Renders(text, item) && WordOk(item)
    ensures text == item
  {
    assert item == ">" ==> !Plain(item[0]);
  }

  lemma SaysSplit(x: seq<Tok>, a: seq<Text>, b: seq<Text>)
    requires Says(x, a + b)
    ensures Says(x[..|a|], a) && Says(x[|a|..], b) && x == x[..|a|] + x[|a|..]
  {
    forall k | 0 <= k < |a| ensures Renders(x[..|a|][k].text, a[k]) { assert (a + b)[k] == a[k]; }
    forall k | 0 <= k < |b| ensures Renders(x[|a|..][k].text, b[k]) { assert (a + b)[|a| + k] == b[k]; }
  }

  function TextsOf(s: seq<Tok>): (r: seq<Text>)
    ensures |r| == |s| && forall k :: 0 <= k < |s| ==> r[k] == s[k].text
  {
    seq(|s|, k requires 0 <= k < |s| => s[k].text)
  }

  /** The command with each word replaced by its characters. */
  function TextOf(c: Cmd<Tok>): (t: Tree)
  {
    match c
    case Exec(argv) => Exec(TextsOf(argv))
    case Redir(d, file, m) => Redir(TextOf(d), file.text, m)
    case Pipe(l, r) => Pipe(TextOf(l), TextOf(r))
    case List(l, r) => List(TextOf(l), TextOf(r))
    case Back(d) => Back(TextOf(d))
  }

  /** What may follow a command of level 0, 1 and 2, 3. */
  predicate Follows(t: seq<Tok>, level: nat)
  {
    t == [] || Next(t, if level == 0 then {'|', ')', '&', ';'} else if level < 3 then {')', '&', ';'} else {')'})
  }

  // ---- redirections ------------------------------------------------------------------------------

  datatype Red = Red(file: Text, mode: Mode)

  function Base(t: Tree): (b: Tree)
    ensures !b.Redir? && (Good(t) ==> Good(b)) && Size(b) <= Size(t) && (t.Redir? ==> Size(b) < Size(t)) && (!t.Redir? ==> b == t)
  {
    if t.Redir? then Base(t.cmd) else t
  }

  function Size(t: Tree): (n: nat)
  {
    match t
    case Exec(_) => 1
    case Redir(c, _, _) => Size(c) + 1
    case Pipe(l, r) => Size(l) + Size(r) + 1
    case List(l, r) => Size(l) + Size(r) + 1
    case Back(c) => Size(c) + 1
  }

  function Reds(t: Tree): (r: seq<Red>)
    ensures Good(t) ==> forall k :: 0 <= k < |r| ==> WordOk(r[k].file)
  {
    if t.Redir? then Reds(t.cmd) + [Red(t.file, t.mode)] else []
  }

  function SpellReds(rs: seq<Red>): (r: seq<Text>)
  {
    if rs == [] then [] else [ModeText(rs[0].mode), rs[0].file] + SpellReds(rs[1..])
  }

  lemma {:induction false} SpellRedsAppend(rs: seq<Red>, r: Red)
    ensures SpellReds(rs + [r]) == SpellReds(rs) + [ModeText(r.mode), r.file]
    decreases |rs|
  {
    var all := rs + [r];
    if rs == [] {
      assert all[1..] == [] && all[0] == r;
    } else {
      assert all[1..] == rs[1..] + [r] && all[0] == rs[0];
      SpellRedsAppend(rs[1..], r);
    }
  }

  lemma {:induction false} SpellBase(t: Tree)
    ensures Spell(t, 0) == Spell(Base(t), 0) + SpellReds(Reds(t))
    decreases t
  {
    if t.Redir? {
      SpellBase(t.cmd);
      SpellRedsAppend(Reds(t.cmd), Red(t.file, t.mode));
    }
  }

  /** The redirections read are the ones wanted. */
  predicate SameReds(list: seq<Redirection>, rs: seq<Red>)
  {
    |list| == |rs| && forall k :: 0 <= k < |rs| ==> list[k].file.text == rs[k].file && list[k].mode == rs[k].mode
  }

  lemma RedirStep(s: Tok, f: Tok, t: seq<Tok>, m: Mode)
    requires Renders(s.text, ModeText(m)) && WordOk(f.text)
    ensures TakeRedirs([s, f] + t) == Prepend([Redirection(f, m)], TakeRedirs(t))
  {
    var all := [s, f] + t;
    assert all[0] == s && all[1] == f && all[2..] == t;
    assert Plain(f.text[0]) && IsWord(f);
    assert Next(all, {'<', '>'});
  }

  lemma NoRedir(t: seq<Tok>)
    requires !Next(t, {'<', '>'})
    ensures TakeRedirs(t) == Redirections([], t)
  {
  }

  lemma Reassociate(a: seq<Tok>, b: seq<Tok>, c: seq<Tok>)
    ensures a + b + c == a + (b + c)
  {
  }

  lemma MoreReds(r: Redirection, more: seq<Redirection>, rs: seq<Red>)
    requires rs != [] && r.file.text == rs[0].file && r.mode == rs[0].mode && SameReds(more, rs[1..])
    ensures SameReds([r] + more, rs)
  {
    forall k | 1 <= k < |rs| ensures ([r] + more)[k].file.text == rs[k].file && ([r] + more)[k].mode == rs[k].mode {
      assert ([r] + more)[k] == more[k - 1] && rs[k] == rs[1..][k - 1];
    }
  }

  lemma {:induction false} ReadReds(x: seq<Tok>, rs: seq<Red>, rest: seq<Tok>) returns (list: seq<Redirection>)
    requires Says(x, SpellReds(rs)) && Follows(rest, 0) && forall k :: 0 <= k < |rs| ==> WordOk(rs[k].file)
    ensures TakeRedirs(x + rest) == Redirections(list, rest) && SameReds(list, rs)
    decreases |rs|
  {
    if rs == [] {
      assert x + rest == rest;
      NoRedir(rest);
      list := [];
    } else {
      SaysSplit(x, [ModeText(rs[0].mode), rs[0].file], SpellReds(rs[1..]));
      var s, f, y := x[..2][0], x[..2][1], x[2..];
      assert x[..2] == [s, f];
      AsItIs(f.text, rs[0].file);
      var more := ReadReds(y, rs[1..], rest);
      RedirStep(s, f, y + rest, rs[0].mode);
      Reassociate([s, f], y, rest);
      list := [Redirection(f, rs[0].mode)] + more;
      MoreReds(Redirection(f, rs[0].mode), more, rs);
    }
  }

  /** Wrapping what was read gives back the command. */
  lemma {:induction false} WrapText(c: Cmd<Tok>, list: seq<Redirection>, t: Tree)
    requires TextOf(c) == Base(t) && SameReds(list, Reds(t))
    ensures TextOf(Wrap(c, list)) == t
    decreases t
  {
    if t.Redir? {
      var m := |list| - 1;
      assert Reds(t)[..m] == Reds(t.cmd);
      forall k | 0 <= k < m ensures list[..m][k].file.text == Reds(t.cmd)[k].file && list[..m][k].mode == Reds(t.cmd)[k].mode {
        assert Reds(t)[k] == Reds(t.cmd)[k];
      }
      WrapText(c, list[..m], t.cmd);
    }
  }

  // ---- simple commands -----------------------------------------------------------------------------

  /** A token of an argument. */
  predicate ArgTok(t: Tok)
  {
    WordOk(t.text) && t.text[0] != '(' && t.text[0] != ')'
  }

  lemma ArgStep(argv: seq<Tok>, w: Tok, t: seq<Tok>, list: seq<Redirection>, rest: seq<Tok>)
    requires ArgTok(w) && |argv| + 1 < MAXARGS && TakeRedirs(t) == Redirections(list, rest)
    ensures TakeArgs(argv, [], [w] + t) == TakeArgs(argv + [w], list, rest)
  {
    var all := [w] + t;
    assert all[0] == w && all[1..] == t && Plain(w.text[0]);
    assert !Next(all, {'|', ')', '&', ';'}) && [] + list == list;
  }

  /** Words are not taken for redirections, blocks or ends. */
  lemma WordFirst(w: Tok, t: seq<Tok>)
    requires ArgTok(w)
    ensures !Next([w] + t, {'<', '>'}) && !Next([w] + t, {'('})
  {
    assert ([w] + t)[0] == w && Plain(w.text[0]);
  }

  lemma {:induction false} ReadArgs(argv: seq<Tok>, x: seq<Tok>, y: seq<Tok>, rs: seq<Red>, rest: seq<Tok>) returns (list: seq<Redirection>)
    requires x != [] && |argv| + |x| < MAXARGS && forall k :: 0 <= k < |x| ==> ArgTok(x[k])
    requires Says(y, SpellReds(rs)) && Follows(rest, 0) && forall k :: 0 <= k < |rs| ==> WordOk(rs[k].file)
    ensures TakeArgs(argv, [], x + (y + rest)) == Parsed(Wrap(Exec(argv + x), list), rest) && SameReds(list, rs)
    decreases |x|
  {
    var w, more := x[0], x[1..];
    assert x + (y + rest) == [w] + (more + (y + rest));
    assert argv + [w] + more == argv + x;
    if more == [] {
      assert more + (y + rest) == y + rest;
      list := ReadReds(y, rs, rest);
      ArgStep(argv, w, y + rest, list, rest);
      assert argv + [w] == argv + x;
    } else {
      var t := more + (y + rest);
      assert t == [more[0]] + (more[1..] + (y + rest));
      WordFirst(more[0], more[1..] + (y + rest));
      NoRedir(t);
      ArgStep(argv, w, t, [], t);
      list := ReadArgs(argv + [w], more, y, rs, rest);
    }
  }

  lemma ReadSimple(x: seq<Tok>, t: Tree, rest: seq<Tok>) returns (c: Cmd<Tok>)
    requires Good(t) && Base(t).Exec? && Says(x, Spell(t, 0)) && Follows(rest, 0)
    ensures TakeExec(x + rest) == Parsed(c, rest) && TextOf(c) == t
  {
    var ws := Base(t).argv;
    SpellBase(t);
    SaysSplit(x, ws, SpellReds(Reds(t)));
    var w, y := x[..|ws|], x[|ws|..];
    assert TextsOf(w) == ws;
    if ws == [] {
      assert x == y;
      c := ReadBare(y, t, rest);
    } else {
      forall k | 0 <= k < |w| ensures ArgTok(w[k]) { assert w[k].text == ws[k]; }
      assert x + rest == w + (y + rest);
      c := ReadWords(w, y, t, rest);
    }
  }

  lemma ReadBare(y: seq<Tok>, t: Tree, rest: seq<Tok>) returns (c: Cmd<Tok>)
    requires Good(t) && Base(t) == Exec([]) && Says(y, SpellReds(Reds(t))) && Follows(rest, 0)
    ensures TakeExec(y + rest) == Parsed(c, rest) && TextOf(c) == t
  {
    var list := ReadReds(y, Reds(t), rest);
    StartOfReds(y, Reds(t), rest);
    c := Wrap(Exec([]), list);
    WrapText(Exec([]), list, t);
  }

  lemma ReadWords(w: seq<Tok>, y: seq<Tok>, t: Tree, rest: seq<Tok>) returns (c: Cmd<Tok>)
    requires Good(t) && Base(t) == Exec(TextsOf(w)) && w != [] && (forall k :: 0 <= k < |w| ==> ArgTok(w[k]))
    requires Says(y, SpellReds(Reds(t))) && Follows(rest, 0)
    ensures TakeExec(w + (y + rest)) == Parsed(c, rest) && TextOf(c) == t
  {
    var all := w + (y + rest);
    var list := ReadArgs([], w, y, Reds(t), rest);
    assert w == [w[0]] + w[1..];
    Reassociate([w[0]], w[1..], y + rest);
    WordFirst(w[0], w[1..] + (y + rest));
    NoRedir(all);
    assert [] + w == w;
    c := Wrap(Exec(w), list);
    WrapText(Exec(w), list, t);
    ExecStep(all);
  }

  lemma ExecStep(t: seq<Tok>)
    requires !Next(t, {'('}) && TakeRedirs(t) == Redirections([], t)
    ensures TakeExec(t) == TakeArgs([], [], t)
  {
  }

  lemma StartOfReds(y: seq<Tok>, rs: seq<Red>, rest: seq<Tok>)
    requires Says(y, SpellReds(rs)) && Follows(rest, 0)
    ensures !Next(y + rest, {'('})
  {
    if rs != [] { assert Renders((y + rest)[0].text, ModeText(rs[0].mode)); } else { assert y + rest == rest; }
  }

  // ---- the levels -----------------------------------------------------------------------------------

  /** How far a level is from the one the command itself has. */
  function Detour(t: Tree, level: nat): (n: nat)
  {
    if level < Rank(t) then 10 + level else level
  }

  /** A sequence of tokens in three parts. */
  lemma Parts(x: seq<Tok>, a: seq<Text>, m: Text, b: seq<Text>, rest: seq<Tok>) returns (u: seq<Tok>, tok: Tok, y: seq<Tok>)
    requires Says(x, a + [m] + b)
    ensures Says(u, a) && Renders(tok.text, m) && Says(y, b) && x + rest == u + ([tok] + (y + rest))
  {
    SaysSplit(x, a + [m], b);
    var v := x[..|a| + 1];
    y := x[|a| + 1..];
    SaysSplit(v, a, [m]);
    u, tok := v[..|a|], v[|a|..][0];
    assert v == u + [tok] && x == v + y;
  }

  lemma SpellPipe(t: Tree)
    requires t.Pipe?
    ensures Spell(t, 1) == Spell(t.left, 0) + ["|"] + Spell(t.right, 1)
  {
    assert Spell(t, 1) == Body(t);
  }

  lemma SpellBack(t: Tree)
    requires t.Back?
    ensures Spell(t, 2) == Spell(t.cmd, 2) + ["&"] + []
  {
    assert Spell(t, 2) == Body(t);
  }

  lemma SpellList(t: Tree)
    requires t.List?
    ensures Spell(t, 3) == Spell(t.left, 2) + [";"] + Spell(t.right, 3)
  {
    assert Spell(t, 3) == Body(t);
  }

  lemma SpellBlock(t: Tree)
    requires Rank(t) > 0
    ensures Spell(t, 0) == [] + ["("] + (Spell(t, 3) + [")"] + [])
  {
    assert Spell(t, 0) == ["("] + Body(t) + [")"] && Spell(t, 3) == Body(t);
  }

  /** A level at which the command needs no parentheses, or the same ones, spells it alike. */
  lemma SpellDown(t: Tree, level: nat)
    requires level < 3 && Rank(t) != level + 1
    ensures Spell(t, level + 1) == Spell(t, level)
  {
  }

  lemma {:induction false} ReadExec(x: seq<Tok>, t: Tree, rest: seq<Tok>) returns (c: Cmd<Tok>)
    requires Good(t) && Says(x, Spell(t, 0)) && Follows(rest, 0)
    ensures TakeExec(x + rest) == Parsed(c, rest) && TextOf(c) == t
    decreases Size(t), Detour(t, 0)
  {
    var b := Base(t);
    if b.Exec? {
      c := ReadSimple(x, t, rest);
    } else {
      SpellBase(t);
      SaysSplit(x, Spell(b, 0), SpellReds(Reds(t)));
      var u, y := x[..|Spell(b, 0)|], x[|Spell(b, 0)|..];
      assert x + rest == u + (y + rest);
      var list := ReadReds(y, Reds(t), rest);
      var d := ReadBlock(u, b, y + rest, list, rest);
      c := Wrap(d, list);
      WrapText(d, list, t);
    }
  }

  /** A command in parentheses, and the redirections after it. */
  lemma {:induction false} ReadBlock(u: seq<Tok>, b: Tree, after: seq<Tok>, list: seq<Redirection>, rest: seq<Tok>) returns (d: Cmd<Tok>)
    requires Good(b) && Rank(b) > 0 && Says(u, Spell(b, 0)) && TakeRedirs(after) == Redirections(list, rest)
    ensures TakeExec(u + after) == Parsed(Wrap(d, list), rest) && TextOf(d) == b
    decreases Size(b), 4
  {
    SpellBlock(b);
    var e, open, v := Parts(u, [], "(", Spell(b, 3) + [")"] + [], after);
    var inner, close, w := Parts(v, Spell(b, 3), ")", [], after);
    assert e == [] && w == [] && w + after == after;
    var tail := [close] + after;
    assert u + after == [open] + (inner + tail);
    d := ReadLine(inner, b, tail);
    assert tail[1..] == after;
    BlockStep(open, inner + tail, d, tail, list, rest);
  }

  lemma BlockStep(open: Tok, t: seq<Tok>, d: Cmd<Tok>, tail: seq<Tok>, list: seq<Redirection>, rest: seq<Tok>)
    requires open.text == "(" && TakeLine(t) == Parsed(d, tail) && Next(tail, {')'}) && TakeRedirs(tail[1..]) == Redirections(list, rest)
    ensures TakeExec([open] + t) == Parsed(Wrap(d, list), rest)
  {
    var all := [open] + t;
    assert all[0] == open && all[1..] == t;
    assert Next(all, {'('});
  }

  lemma {:induction false} ReadPipe(x: seq<Tok>, t: Tree, rest: seq<Tok>) returns (c: Cmd<Tok>)
    requires Good(t) && Says(x, Spell(t, 1)) && Follows(rest, 1)
    ensures TakePipe(x + rest) == Parsed(c, rest) && TextOf(c) == t
    decreases Size(t), Detour(t, 1)
  {
    if t.Pipe? {
      SpellPipe(t);
      var u, bar, y := Parts(x, Spell(t.left, 0), "|", Spell(t.right, 1), rest);
      var after := [bar] + (y + rest);
      assert after[0] == bar && after[1..] == y + rest;
      var l := ReadExec(u, t.left, after);
      var r := ReadPipe(y, t.right, rest);
      c := Pipe(l, r);
    } else {
      SpellDown(t, 0);
      c := ReadExec(x, t, rest);
    }
  }

  lemma {:induction false} ReadBacks(x: seq<Tok>, t: Tree, rest: seq<Tok>) returns (p: Cmd<Tok>, y: seq<Tok>, c: Cmd<Tok>)
    requires Good(t) && Says(x, Spell(t, 2)) && Follows(rest, 2)
    ensures TakePipe(x + rest) == Parsed(p, y) && TakeBacks(p, y) == TakeBacks(c, rest) && TextOf(c) == t
    decreases Size(t), Detour(t, 2)
  {
    if t.Back? {
      SpellBack(t);
      var u, amp, z := Parts(x, Spell(t.cmd, 2), "&", [], rest);
      assert z + rest == rest;
      var after := [amp] + rest;
      assert after[0] == amp && after[1..] == rest;
      var d;
      p, y, d := ReadBacks(u, t.cmd, after);
      c := Back(d);
    } else {
      SpellDown(t, 1);
      c := ReadPipe(x, t, rest);
      p, y := c, rest;
    }
  }

  lemma {:induction false} ReadLine(x: seq<Tok>, t: Tree, rest: seq<Tok>) returns (c: Cmd<Tok>)
    requires Good(t) && Says(x, Spell(t, 3)) && Follows(rest, 3)
    ensures TakeLine(x + rest) == Parsed(c, rest) && TextOf(c) == t
    decreases Size(t), Detour(t, 3)
  {
    if t.List? {
      SpellList(t);
      var u, semi, z := Parts(x, Spell(t.left, 2), ";", Spell(t.right, 3), rest);
      var after := [semi] + (z + rest);
      assert after[0] == semi && after[1..] == z + rest;
      var p, y, l := ReadBacks(u, t.left, after);
      var r := ReadLine(z, t.right, rest);
      c := List(l, r);
    } else {
      SpellDown(t, 2);
      var p, y;
      p, y, c := ReadBacks(x, t, rest);
    }
  }

  // ---- the characters -------------------------------------------------------------------------------

  const BLANKS: set<char> := {' ', '\t', '\r', '\n', 11 as char}
  const SYMBOLS: set<char> := {'<', '|', '>', '&', ';'}

  /** A token that can be written: a word, one symbol or >>. */
  predicate ItemOk(w: Text)
  {
    WordOk(w) || (|w| == 1 && w[0] in SYMBOLS) || w == ">>"
  }

  lemma {:induction false} SpellOk(t: Tree, level: nat, k: nat)
    requires Good(t) && k < |Spell(t, level)|
    ensures ItemOk(Spell(t, level)[k])
    decreases t, 1
  {
    if level < Rank(t) {
      if 0 < k < |Spell(t, level)| - 1 { BodyOk(t, k - 1); }
    } else {
      BodyOk(t, k);
    }
  }

  lemma {:induction false} BodyOk(t: Tree, k: nat)
    requires Good(t) && k < |Body(t)|
    ensures ItemOk(Body(t)[k])
    decreases t, 0
  {
    match t {
      case Exec(argv) =>
      case Redir(c, file, m) => if k < |Spell(c, 0)| { SpellOk(c, 0, k); }
      case Pipe(l, r) =>
        if k < |Spell(l, 0)| { SpellOk(l, 0, k); } else if k > |Spell(l, 0)| { SpellOk(r, 1, k - |Spell(l, 0)| - 1); }
      case Back(c) => if k < |Spell(c, 2)| { SpellOk(c, 2, k); }
      case List(l, r) =>
        if k < |Spell(l, 2)| { SpellOk(l, 2, k); } else if k > |Spell(l, 2)| { SpellOk(r, 3, k - |Spell(l, 2)| - 1); }
    }
  }

  ghost predicate AllBlank(s: seq<char>, i: nat, j: nat)
  {
    i <= j <= |s| && forall k :: i <= k < j ==> s[k] in BLANKS
  }

  /** What follows at e does not prolong the token w: a word needs a blank, a symbol or the end of the
      line, and > needs no other >. */
  predicate Ended(s: seq<char>, e: nat, w: Text)
  {
    e >= |s| || if WordOk(w) then s[e] in BLANKS || s[e] in SYMBOLS else w == ">" ==> s[e] != '>'
  }

  /** After blanks the token w stands in [q, e). */
  ghost predicate Stands(s: seq<char>, i: nat, q: nat, e: nat, w: Text)
  {
    AllBlank(s, i, q) && q + |w| == e <= |s| && s[q..e] == w && ItemOk(w) && Ended(s, e, w)
  }

  /** The line from i on is the items, with any blanks before, between and behind them. */
  ghost predicate Written(s: seq<char>, i: nat, items: seq<Text>)
    decreases |items|
  {
    if items == [] then AllBlank(s, i, |s|)
    else exists q: nat, e: nat, w :: Renders(w, items[0]) && Stands(s, i, q, e, w) && Written(s, e, items[1..])
  }

  /** The line from i on is read as the items. */
  ghost predicate Reads(s: seq<char>, i: nat, items: seq<Text>)
  {
    i <= |s| && Says(Lex(s, i), items)
  }

  lemma {:induction false} BlankRun(s: seq<char>, i: nat, q: nat)
    requires AllBlank(s, i, q) && (q < |s| ==> !IsWhite(s[q]))
    ensures SkipWhite(s, i) == q
    decreases q - i
  {
    if i < q { BlankRun(s, i + 1, q); }
  }

  lemma {:induction false} PlainRun(s: seq<char>, i: nat, j: nat)
    requires i <= j <= |s| && (forall k :: i <= k < j ==> Plain(s[k])) && (j < |s| ==> s[j] in BLANKS || s[j] in SYMBOLS)
    ensures SkipPlain(s, i) == j
    decreases j - i
  {
    if i < j { PlainRun(s, i + 1, j); }
  }

  /** One token is read back. */
  lemma {:induction false} LexItem(s: seq<char>, i: nat, q: nat, e: nat, w: Text)
    requires Stands(s, i, q, e, w)
    ensures Lex(s, i) == [Tok(q, e, w)] + Lex(s, e)
  {
    forall k | q <= k < e ensures s[k] == w[k - q] { }
    if WordOk(w) {
      forall k | q <= k < e ensures Plain(s[k]) { assert Plain(w[k - q]); }
      PlainRun(s, q, e);
    } else {
      assert s[q] == w[0] && w[0] in SYMBOLS && (w == ">>" ==> s[q + 1] == '>');
    }
    BlankRun(s, i, q);
    assert TokenEnd(s, q) == e;
    LexAt(s, i);
  }

  /** The tokens are read back one by one. */
  lemma {:induction false} LexWritten(s: seq<char>, i: nat, items: seq<Text>)
    requires Written(s, i, items)
    ensures Reads(s, i, items)
    decreases |items|
  {
    if items == [] {
      BlankRun(s, i, |s|);
      LexAt(s, i);
    } else {
      var q: nat, e: nat, w :| Renders(w, items[0]) && Stands(s, i, q, e, w) && Written(s, e, items[1..]);
      LexWritten(s, e, items[1..]);
      LexItem(s, i, q, e, w);
      SaysCons(Tok(q, e, w), Lex(s, e), items);
    }
  }

  lemma SaysCons(t: Tok, x: seq<Tok>, items: seq<Text>)
    requires items != [] && Renders(t.text, items[0]) && Says(x, items[1..])
    ensures Says([t] + x, items)
  {
    forall k | 1 <= k < |items| ensures Renders(([t] + x)[k].text, items[k]) {
      assert ([t] + x)[k] == x[k - 1] && items[1..][k - 1] == items[k];
    }
  }

  /** The line from i on is the printed items. */
  ghost predicate Prints(s: seq<char>, i: nat, items: seq<Text>)
  {
    i <= |s| && s[i..] == Spaced(items) && forall k :: 0 <= k < |items| ==> ItemOk(items[k])
  }

  lemma HeadOf(s: seq<char>, i: nat, w: Text, post: seq<char>)
    requires i <= |s| && s[i..] == w + " " + post
    ensures i + |w| < |s| && s[i..i + |w|] == w && s[i + |w|] == ' ' && s[i + |w| + 1..] == post
  {
    var t := s[i..];
    assert t[..|w|] == w && t[|w|] == ' ' && t[|w| + 1..] == post;
    assert s[i..i + |w|] == t[..|w|] && s[i + |w| + 1..] == t[|w| + 1..];
  }

  lemma {:induction false} BlankBefore(s: seq<char>, j: nat, items: seq<Text>)
    requires j < |s| && s[j] in BLANKS && Written(s, j + 1, items)
    ensures Written(s, j, items)
  {
    if items != [] {
      var q: nat, e: nat, w :| Renders(w, items[0]) && Stands(s, j + 1, q, e, w) && Written(s, e, items[1..]);
      assert Stands(s, j, q, e, w);
    }
  }

  lemma {:induction false} PrintedIsWritten(s: seq<char>, i: nat, items: seq<Text>)
    requires Prints(s, i, items)
    ensures Written(s, i, items)
    decreases |items|
  {
    if items != [] {
      var e := PrintsHead(s, i, items);
      PrintedIsWritten(s, e + 1, items[1..]);
      BlankBefore(s, e, items[1..]);
      assert Renders(items[0], items[0]);
    }
  }

  lemma {:induction false} PrintsHead(s: seq<char>, i: nat, items: seq<Text>) returns (e: nat)
    requires Prints(s, i, items) && items != []
    ensures Stands(s, i, i, e, items[0]) && e < |s| && s[e] in BLANKS && Prints(s, e + 1, items[1..])
  {
    HeadOf(s, i, items[0], Spaced(items[1..]));
    e := i + |items[0]|;
  }

  /** Reading a command, however its tokens are spaced, and with > or >>, gives the command back, whatever its shape. */
  lemma RoundTrip(t: Tree, s: seq<char>)
    requires Good(t) && Written(s, 0, Spell(t, 3))
    ensures var p := TakeLine(Lex(s, 0)); p.Parsed? && p.rest == [] && TextOf(p.cmd) == t
  {
    LexWritten(s, 0, Spell(t, 3));
    var x := Lex(s, 0);
    var c := ReadLine(x, t, []);
    assert x + [] == x;
  }

  /** In particular with a space after each. */
  lemma PrintRoundTrip(t: Tree)
    requires Good(t)
    ensures var p := TakeLine(Lex(Print(t), 0)); p.Parsed? && p.rest == [] && TextOf(p.cmd) == t
  {
    var items := Spell(t, 3);
    forall k | 0 <= k < |items| ensures ItemOk(items[k]) { SpellOk(t, 3, k); }
    assert Print(t)[0..] == Print(t);
    PrintedIsWritten(Print(t), 0, items);
    RoundTrip(t, Print(t));
  }
}
