/** The command parser of sh.c: the tokens of a line, the recursive descent over them, and the
    same descent with a cursor into the line. */
module ShellParser {
  import opened Wrappers

  const MAXARGS: nat := 10

  datatype Mode = ReadOnly | WriteCreate          // onto descriptor 0, onto descriptor 1

  /** A parsed command; W is what stands for a word. */
  datatype Cmd<W> =
    | Exec(argv: seq<W>)
    | Redir(cmd: Cmd<W>, file: W, mode: Mode)
    | Pipe(left: Cmd<W>, right: Cmd<W>)
    | List(left: Cmd<W>, right: Cmd<W>)
    | Back(cmd: Cmd<W>)

  /** A token: where it starts and ends in the line, and its characters. */
  datatype Tok = Tok(q: nat, eq: nat, text: seq<char>)

  // ---- characters ----------------------------------------------------------------------------

  predicate IsWhite(c: char)
  {
    c == ' ' || c == '\t' || c == '\r' || c == '\n' || c == 11 as char
  }

  predicate IsSymbol(c: char)
  {
    c == '<' || c == '|' || c == '>' || c == '&' || c == ';'
  }

  /** A character of a word; parentheses are such characters. */
  predicate Plain(c: char)
  {
    !IsWhite(c) && !IsSymbol(c)
  }

  function SkipWhite(s: seq<char>, i: nat): (j: nat)
    requires i <= |s|
    ensures i <= j <= |s| && (forall k :: i <= k < j ==> IsWhite(s[k])) && (j < |s| ==> !IsWhite(s[j]))
    decreases |s| - i
  {
    if i < |s| && IsWhite(s[i]) then SkipWhite(s, i + 1) else i
  }

  function SkipPlain(s: seq<char>, i: nat): (j: nat)
    requires i <= |s|
    ensures i <= j <= |s| && (forall k :: i <= k < j ==> Plain(s[k])) && (j < |s| ==> !Plain(s[j]))
    ensures i < |s| && Plain(s[i]) ==> i < j
    decreases |s| - i
  {
    if i < |s| && Plain(s[i]) then SkipPlain(s, i + 1) else i
  }

  function TokenEnd(s: seq<char>, i: nat): (j: nat)
    requires i < |s| && !IsWhite(s[i])
    ensures i < j <= |s|
  {
    if s[i] == '>' && i + 1 < |s| && s[i + 1] == '>' then i + 2
    else if IsSymbol(s[i]) then i + 1
    else SkipPlain(s, i)
  }

  /** The tokens of the line from position i on. */
  function Lex(s: seq<char>, i: nat): (r: seq<Tok>)
    requires i <= |s|
    ensures forall k :: 0 <= k < |r| ==> i <= r[k].q < r[k].eq <= |s| && r[k].text == s[r[k].q..r[k].eq] && (IsWord(r[k]) ==> WholeWord(s, r[k]))
    decreases |s| - i
  {
    var j := SkipWhite(s, i);
    if j == |s| then [] else [Tok(j, TokenEnd(s, j), s[j..TokenEnd(s, j)])] + Lex(s, TokenEnd(s, j))
  }

  /** gettoken's result would be 'a'. */
  predicate IsWord(t: Tok)
  {
    t.text != [] && !IsSymbol(t.text[0])
  }

  /** The token is a longest stretch of word characters. */
  predicate WholeWord(s: seq<char>, t: Tok)
  {
    && t.q < t.eq <= |s| && t.text == s[t.q..t.eq]
    && (forall k :: t.q <= k < t.eq ==> Plain(s[k]))
    && (t.eq < |s| ==> !Plain(s[t.eq]))
  }

  // ---- the grammar over tokens -----------------------------------------------------------------

  /** The next token begins with one of the characters. */
  predicate Next(t: seq<Tok>, chars: set<char>)
  {
    t != [] && t[0].text != [] && t[0].text[0] in chars
  }

  datatype Parsed = Panic | Parsed(cmd: Cmd<Tok>, rest: seq<Tok>)

  datatype Redirection = Redirection(file: Tok, mode: Mode)
  datatype Redirections = NoFile | Redirections(list: seq<Redirection>, rest: seq<Tok>)

  /** cmd inside the redirections, the last one outermost. */
  function Wrap(cmd: Cmd<Tok>, list: seq<Redirection>): (r: Cmd<Tok>)
    decreases |list|
  {
    if list == [] then cmd
    else
      var last := list[|list| - 1];
      Redir(Wrap(cmd, list[..|list| - 1]), last.file, last.mode)
  }

  /** parseredirs. */
  function TakeRedirs(t: seq<Tok>): (r: Redirections)
    ensures r.Redirections? ==> |r.rest| <= |t|
    decreases |t|
  {
    if !Next(t, {'<', '>'}) then Redirections([], t)
    else if |t| < 2 || !IsWord(t[1]) then NoFile
    else
      var r := TakeRedirs(t[2..]);
      if r.NoFile? then NoFile
      else Redirections([Redirection(t[1], if t[0].text[0] == '<' then ReadOnly else WriteCreate)] + r.list, r.rest)
  }

  /** parseexec's loop over the words. */
  function TakeArgs(argv: seq<Tok>, list: seq<Redirection>, t: seq<Tok>): (r: Parsed)
    ensures r.Parsed? ==> |r.rest| <= |t|
    decreases |t|
  {
    if t == [] || Next(t, {'|', ')', '&', ';'}) then Parsed(Wrap(Exec(argv), list), t)
    else if !IsWord(t[0]) || |argv| + 1 >= MAXARGS then Panic
    else
      var r := TakeRedirs(t[1..]);
      if r.NoFile? then Panic else TakeArgs(argv + [t[0]], list + r.list, r.rest)
  }

  function TakeExec(t: seq<Tok>): (r: Parsed)
    ensures r.Parsed? ==> |r.rest| <= |t|
    decreases |t|, 0
  {
    if Next(t, {'('}) then
      var r := TakeLine(t[1..]);
      if r.Panic? || !Next(r.rest, {')'}) then Panic
      else
        var d := TakeRedirs(r.rest[1..]);
        if d.NoFile? then Panic else Parsed(Wrap(r.cmd, d.list), d.rest)
    else
      var d := TakeRedirs(t);
      if d.NoFile? then Panic else TakeArgs([], d.list, d.rest)
  }

  function TakePipe(t: seq<Tok>): (r: Parsed)
    ensures r.Parsed? ==> |r.rest| <= |t|
    decreases |t|, 1
  {
    var l := TakeExec(t);
    if l.Panic? || !Next(l.rest, {'|'}) then l
    else
      var r := TakePipe(l.rest[1..]);
      if r.Panic? then Panic else Parsed(Pipe(l.cmd, r.cmd), r.rest)
  }

  /** parseline's loop over ampersands. */
  function TakeBacks(cmd: Cmd<Tok>, t: seq<Tok>): (r: Parsed)
    ensures r.Parsed? && |r.rest| <= |t| && !Next(r.rest, {'&'})
    decreases |t|
  {
    if Next(t, {'&'}) then TakeBacks(Back(cmd), t[1..]) else Parsed(cmd, t)
  }

  function TakeLine(t: seq<Tok>): (r: Parsed)
    ensures r.Parsed? ==> |r.rest| <= |t|
    decreases |t|, 2
  {
    var p := TakePipe(t);
    if p.Panic? then Panic
    else
      var b := TakeBacks(p.cmd, p.rest);
      if !Next(b.rest, {';'}) then b
      else
        var r := TakeLine(b.rest[1..]);
        if r.Panic? then Panic else Parsed(List(b.cmd, r.cmd), r.rest)
  }

  // ---- what is accepted --------------------------------------------------------------------------

  predicate IsArrow(t: Tok)
  {
    t.text != [] && (t.text[0] == '<' || t.text[0] == '>')
  }

  /** rest is the end of t, and each redirection before it is followed by its file. */
  ghost predicate Sound(t: seq<Tok>, rest: seq<Tok>)
  {
    |rest| <= |t| && rest == t[|t| - |rest|..] &&
    forall k :: 0 <= k < |t| - |rest| && IsArrow(t[k]) ==> k + 1 < |t| - |rest| && IsWord(t[k + 1])
  }

  /** No command has MAXARGS words or more. */
  predicate FewArgs(c: Cmd<Tok>)
  {
    match c
    case Exec(argv) => |argv| < MAXARGS
    case Redir(d, _, _) => FewArgs(d)
    case Pipe(l, r) => FewArgs(l) && FewArgs(r)
    case List(l, r) => FewArgs(l) && FewArgs(r)
    case Back(d) => FewArgs(d)
  }

  lemma {:induction false} SoundNone(t: seq<Tok>)
    ensures Sound(t, t)
  {
  }

  lemma {:induction false} SoundTrans(t: seq<Tok>, u: seq<Tok>, v: seq<Tok>)
    requires Sound(t, u) && Sound(u, v)
    ensures Sound(t, v)
  {
    var m, n := |t| - |u|, |t| - |v|;
    forall k | 0 <= k < n && IsArrow(t[k]) ensures k + 1 < n && IsWord(t[k + 1]) {
      if k >= m { assert t[k] == u[k - m] && t[k + 1] == u[k + 1 - m]; }
    }
  }

  lemma {:induction false} SoundOne(t: seq<Tok>)
    requires t != [] && !IsArrow(t[0])
    ensures Sound(t, t[1..])
  {
  }

  lemma {:induction false} RedirsSound(t: seq<Tok>)
    ensures TakeRedirs(t).NoFile? || Sound(t, TakeRedirs(t).rest)
    decreases |t|
  {
    if !Next(t, {'<', '>'}) {
      SoundNone(t);
    } else if |t| >= 2 && IsWord(t[1]) && TakeRedirs(t[2..]).Redirections? {
      RedirsSound(t[2..]);
      SoundTwo(t);
      SoundTrans(t, t[2..], TakeRedirs(t[2..]).rest);
    }
  }

  lemma {:induction false} SoundTwo(t: seq<Tok>)
    requires |t| >= 2 && IsWord(t[1])
    ensures Sound(t, t[2..])
  {
  }

  lemma {:induction false} WrapFew(cmd: Cmd<Tok>, list: seq<Redirection>)
    requires FewArgs(cmd)
    ensures FewArgs(Wrap(cmd, list))
    decreases |list|
  {
    if list != [] { WrapFew(cmd, list[..|list| - 1]); }
  }

  lemma {:induction false} ArgsSound(argv: seq<Tok>, list: seq<Redirection>, t: seq<Tok>)
    requires |argv| < MAXARGS
    ensures var r := TakeArgs(argv, list, t); r.Panic? || (Sound(t, r.rest) && FewArgs(r.cmd))
    decreases |t|
  {
    if t == [] || Next(t, {'|', ')', '&', ';'}) {
      SoundNone(t);
      WrapFew(Exec(argv), list);
    } else if IsWord(t[0]) && |argv| + 1 < MAXARGS && TakeRedirs(t[1..]).Redirections? {
      var r := TakeRedirs(t[1..]);
      WordSound(t, r.rest);
      ArgsSound(argv + [t[0]], list + r.list, r.rest);
      var a := TakeArgs(argv + [t[0]], list + r.list, r.rest);
      if a.Parsed? { SoundTrans(t, r.rest, a.rest); }
    }
  }

  /** A word and the redirections after it. */
  lemma {:induction false} WordSound(t: seq<Tok>, rest: seq<Tok>)
    requires t != [] && IsWord(t[0]) && TakeRedirs(t[1..]).Redirections? && rest == TakeRedirs(t[1..]).rest
    ensures Sound(t, rest)
  {
    SoundOne(t);
    RedirsSound(t[1..]);
    SoundTrans(t, t[1..], rest);
  }

  lemma {:induction false} ExecSound(t: seq<Tok>)
    ensures var r := TakeExec(t); r.Panic? || (Sound(t, r.rest) && FewArgs(r.cmd))
    decreases |t|, 0
  {
    if Next(t, {'('}) {
      var r := TakeLine(t[1..]);
      if r.Parsed? && Next(r.rest, {')'}) && TakeRedirs(r.rest[1..]).Redirections? {
        var d := TakeRedirs(r.rest[1..]);
        LineSound(t[1..]);
        SoundOne(t);
        SoundOne(r.rest);
        RedirsSound(r.rest[1..]);
        SoundTrans(t, t[1..], r.rest);
        SoundTrans(t, r.rest, r.rest[1..]);
        SoundTrans(t, r.rest[1..], d.rest);
        WrapFew(r.cmd, d.list);
      }
    } else if TakeRedirs(t).Redirections? {
      var d := TakeRedirs(t);
      RedirsSound(t);
      ArgsSound([], d.list, d.rest);
      var a := TakeArgs([], d.list, d.rest);
      if a.Parsed? { SoundTrans(t, d.rest, a.rest); }
    }
  }

  lemma {:induction false} PipeSound(t: seq<Tok>)
    ensures var r := TakePipe(t); r.Panic? || (Sound(t, r.rest) && FewArgs(r.cmd))
    decreases |t|, 1
  {
    ExecSound(t);
    var l := TakeExec(t);
    if l.Parsed? && Next(l.rest, {'|'}) {
      var r := TakePipe(l.rest[1..]);
      SoundOne(l.rest);
      PipeSound(l.rest[1..]);
      if r.Parsed? {
        SoundTrans(t, l.rest, l.rest[1..]);
        SoundTrans(t, l.rest[1..], r.rest);
      }
    }
  }

  lemma {:induction false} BacksSound(cmd: Cmd<Tok>, t: seq<Tok>)
    requires FewArgs(cmd)
    ensures var r := TakeBacks(cmd, t); Sound(t, r.rest) && FewArgs(r.cmd)
    decreases |t|
  {
    if Next(t, {'&'}) {
      SoundOne(t);
      BacksSound(Back(cmd), t[1..]);
      SoundTrans(t, t[1..], TakeBacks(Back(cmd), t[1..]).rest);
    } else {
      SoundNone(t);
    }
  }

  /** A pipe and the ampersands after it. */
  lemma {:induction false} FrontSound(t: seq<Tok>)
    requires TakePipe(t).Parsed?
    ensures var b := TakeBacks(TakePipe(t).cmd, TakePipe(t).rest); Sound(t, b.rest) && FewArgs(b.cmd)
    decreases |t|, 2
  {
    PipeSound(t);
    var p := TakePipe(t);
    BacksSound(p.cmd, p.rest);
    SoundTrans(t, p.rest, TakeBacks(p.cmd, p.rest).rest);
  }

  /** What the grammar takes has a file behind each redirection and no command of MAXARGS words. */
  lemma {:induction false} LineSound(t: seq<Tok>)
    ensures var r := TakeLine(t); r.Panic? || (Sound(t, r.rest) && FewArgs(r.cmd))
    decreases |t|, 3
  {
    var p := TakePipe(t);
    if p.Parsed? {
      FrontSound(t);
      var b := TakeBacks(p.cmd, p.rest);
      if Next(b.rest, {';'}) {
        var u := b.rest[1..];
        SoundOne(b.rest);
        SoundTrans(t, b.rest, u);
        LineSound(u);
        AfterSemi(t, u);
      }
    }
  }

  lemma {:induction false} AfterSemi(t: seq<Tok>, u: seq<Tok>)
    requires Sound(t, u)
    ensures var r := TakeLine(u); r.Panic? || (Sound(u, r.rest) ==> Sound(t, r.rest))
  {
    var r := TakeLine(u);
    if r.Parsed? && Sound(u, r.rest) { SoundTrans(t, u, r.rest); }
  }

  // ---- the descent with a cursor -----------------------------------------------------------------

  /** The middle of gettoken. */
  method ScanToken(s: seq<char>, q: nat) returns (i: nat)
    requires q < |s| && !IsWhite(s[q])
    ensures i == TokenEnd(s, q)
  {
    i := q;
    if s[i] == '>' {
      i := i + 1;
      if i < |s| && s[i] == '>' {
        i := i + 1;
      }
    } else if IsSymbol(s[i]) {
      i := i + 1;
    } else {
      while i < |s| && Plain(s[i])
        invariant q <= i <= |s| && SkipPlain(s, i) == SkipPlain(s, q)
      {
        i := i + 1;
      }
    }
  }

  lemma LexAt(s: seq<char>, i: nat)
    requires i <= |s|
    ensures var j := SkipWhite(s, i);
            Lex(s, i) == if j == |s| then [] else [Tok(j, TokenEnd(s, j), s[j..TokenEnd(s, j)])] + Lex(s, TokenEnd(s, j))
  {
  }

  /** gettoken. */
  method GetToken(s: seq<char>, ps: nat) returns (t: Option<Tok>, i: nat)
    requires ps <= |s|
    ensures ps <= i <= |s| && (t.Some? ==> ps < i)
    ensures t.None? <==> Lex(s, ps) == []
    ensures t.Some? ==> Lex(s, ps)[0] == t.value && Lex(s, ps)[1..] == Lex(s, i)
    ensures t.None? ==> i == |s|
  {
    LexAt(s, ps);
    var q := Skip(s, ps);
    if q == |s| {
      return None, q;
    }
    var e := ScanToken(s, q);
    t := Some(Tok(q, e, s[q..e]));
    i := Skip(s, e);
  }

  method Skip(s: seq<char>, ps: nat) returns (i: nat)
    requires ps <= |s|
    ensures i == SkipWhite(s, ps) && Lex(s, i) == Lex(s, ps)
  {
    i := ps;
    while i < |s| && IsWhite(s[i])
      invariant ps <= i <= |s| && SkipWhite(s, i) == SkipWhite(s, ps)
    {
      i := i + 1;
    }
  }

  /** peek. */
  method Peek(s: seq<char>, ps: nat, chars: set<char>) returns (b: bool, i: nat)
    requires ps <= |s|
    ensures i == SkipWhite(s, ps) && Lex(s, i) == Lex(s, ps) && (b <==> Next(Lex(s, ps), chars))
  {
    i := Skip(s, ps);
    b := i < |s| && s[i] in chars;
  }

  /** parseredirs, with the redirections it puts around the command. */
  method ParseRedirs(s: seq<char>, ps: nat) returns (r: Option<seq<Redirection>>, i: nat)
    requires ps <= |s|
    ensures ps <= i <= |s|
    ensures r.None? <==> TakeRedirs(Lex(s, ps)).NoFile?
    ensures r.Some? ==> TakeRedirs(Lex(s, ps)) == Redirections(r.value, Lex(s, i))
  {
    i := ps;
    var list: seq<Redirection> := [];
    var more;
    more, i := Peek(s, i, {'<', '>'});
    while more
      invariant ps <= i <= |s| && (more <==> Next(Lex(s, i), {'<', '>'}))
      invariant TakeRedirs(Lex(s, ps)) == Prepend(list, TakeRedirs(Lex(s, i)))
      decreases |s| - i
    {
      ghost var t := Lex(s, i);
      var tok, file;
      tok, i := GetToken(s, i);
      file, i := GetToken(s, i);
      if file.None? || !IsWord(file.value) {
        MissingFile(t);
        return None, i;
      }
      PrependStep(list, t);
      assert t[1..][1..] == t[2..];
      list := list + [Redirection(file.value, if tok.value.text[0] == '<' then ReadOnly else WriteCreate)];
      more, i := Peek(s, i, {'<', '>'});
    }
    r := Some(list);
  }

  /** The redirections already taken, before the others. */
  function Prepend(list: seq<Redirection>, r: Redirections): (q: Redirections)
  {
    if r.NoFile? then NoFile else Redirections(list + r.list, r.rest)
  }

  lemma {:induction false} MissingFile(t: seq<Tok>)
    requires Next(t, {'<', '>'}) && (|t| < 2 || !IsWord(t[1]))
    ensures TakeRedirs(t).NoFile?
  {
  }

  lemma {:induction false} PrependStep(list: seq<Redirection>, t: seq<Tok>)
    requires Next(t, {'<', '>'}) && |t| >= 2 && IsWord(t[1])
    ensures Prepend(list, TakeRedirs(t))
            == Prepend(list + [Redirection(t[1], if t[0].text[0] == '<' then ReadOnly else WriteCreate)], TakeRedirs(t[2..]))
  {
    var d := Redirection(t[1], if t[0].text[0] == '<' then ReadOnly else WriteCreate);
    var r := TakeRedirs(t[2..]);
    if r.Redirections? { assert list + ([d] + r.list) == list + [d] + r.list; }
  }

  /** What a parsing method has established: the cursor stands where the tokens left over start. */
  predicate Agrees(s: seq<char>, r: Option<Cmd<Tok>>, i: nat, p: Parsed)
  {
    i <= |s| && (r.None? <==> p.Panic?) && (r.Some? ==> p == Parsed(r.value, Lex(s, i)))
  }

  /** parseexec's loop. */
  method ParseArgs(s: seq<char>, ps: nat, outer: seq<Redirection>) returns (r: Option<Cmd<Tok>>, i: nat)
    requires ps <= |s|
    ensures ps <= i && Agrees(s, r, i, TakeArgs([], outer, Lex(s, ps)))
  {
    i := ps;
    var argv: seq<Tok>, list := [], outer;
    var stop;
    stop, i := Peek(s, i, {'|', ')', '&', ';'});
    while !stop
      invariant ps <= i <= |s| && (stop <==> Next(Lex(s, i), {'|', ')', '&', ';'}))
      invariant TakeArgs([], outer, Lex(s, ps)) == TakeArgs(argv, list, Lex(s, i))
      decreases |s| - i
    {
      var tok;
      tok, i := GetToken(s, i);
      if tok.None? {
        return Some(Wrap(Exec(argv), list)), i;
      }
      if !IsWord(tok.value) {
        return None, i;
      }
      argv := argv + [tok.value];
      if |argv| >= MAXARGS {
        return None, i;
      }
      var more;
      more, i := ParseRedirs(s, i);
      if more.None? {
        return None, i;
      }
      list := list + more.value;
      stop, i := Peek(s, i, {'|', ')', '&', ';'});
    }
    r := Some(Wrap(Exec(argv), list));
  }

  /** parseblock. */
  method ParseBlock(s: seq<char>, ps: nat) returns (r: Option<Cmd<Tok>>, i: nat)
    requires ps <= |s| && Next(Lex(s, ps), {'('})
    ensures ps <= i && Agrees(s, r, i, TakeExec(Lex(s, ps)))
    decreases |s| - ps, 0
  {
    var open;
    open, i := GetToken(s, ps);
    var cmd;
    cmd, i := ParseLine(s, i);
    if cmd.None? {
      return None, i;
    }
    var closed;
    closed, i := Peek(s, i, {')'});
    if !closed {
      return None, i;
    }
    var close, list;
    close, i := GetToken(s, i);
    list, i := ParseRedirs(s, i);
    r := if list.None? then None else Some(Wrap(cmd.value, list.value));
  }

  /** parseexec. */
  method ParseExec(s: seq<char>, ps: nat) returns (r: Option<Cmd<Tok>>, i: nat)
    requires ps <= |s|
    ensures ps <= i && Agrees(s, r, i, TakeExec(Lex(s, ps)))
    decreases |s| - ps, 1
  {
    var block;
    block, i := Peek(s, ps, {'('});
    if block {
      r, i := ParseBlock(s, i);
      return;
    }
    var list;
    list, i := ParseRedirs(s, i);
    if list.None? {
      return None, i;
    }
    r, i := ParseArgs(s, i, list.value);
  }

  /** parsepipe. */
  method ParsePipe(s: seq<char>, ps: nat) returns (r: Option<Cmd<Tok>>, i: nat)
    requires ps <= |s|
    ensures ps <= i && Agrees(s, r, i, TakePipe(Lex(s, ps)))
    decreases |s| - ps, 2
  {
    r, i := ParseExec(s, ps);
    if r.None? {
      return;
    }
    var bar;
    bar, i := Peek(s, i, {'|'});
    if bar {
      var tok, right;
      tok, i := GetToken(s, i);
      right, i := ParsePipe(s, i);
      r := if right.None? then None else Some(Pipe(r.value, right.value));
    }
  }

  /** parseline. */
  method ParseLine(s: seq<char>, ps: nat) returns (r: Option<Cmd<Tok>>, i: nat)
    requires ps <= |s|
    ensures ps <= i && Agrees(s, r, i, TakeLine(Lex(s, ps)))
    decreases |s| - ps, 3
  {
    r, i := ParsePipe(s, ps);
    if r.None? {
      return;
    }
    var cmd;
    cmd, i := ParseBacks(s, i, r.value);
    var semi;
    semi, i := Peek(s, i, {';'});
    if semi {
      var tok, right;
      tok, i := GetToken(s, i);
      right, i := ParseLine(s, i);
      return if right.None? then None else Some(List(cmd, right.value)), i;
    }
    r := Some(cmd);
  }

  method ParseBacks(s: seq<char>, ps: nat, first: Cmd<Tok>) returns (cmd: Cmd<Tok>, i: nat)
    requires ps <= |s|
    ensures ps <= i <= |s| && TakeBacks(first, Lex(s, ps)) == Parsed(cmd, Lex(s, i))
  {
    cmd := first;
    var amp;
    amp, i := Peek(s, ps, {'&'});
    while amp
      invariant ps <= i <= |s| && (amp <==> Next(Lex(s, i), {'&'})) && TakeBacks(first, Lex(s, ps)) == TakeBacks(cmd, Lex(s, i))
      decreases |s| - i
    {
      var tok;
      tok, i := GetToken(s, i);
      cmd := Back(cmd);
      amp, i := Peek(s, i, {'&'});
    }
  }

  // ---- nulterminate ----------------------------------------------------------------------------

  /** The words of a command. */
  function Words(c: Cmd<Tok>): (r: set<Tok>)
  {
    match c
    case Exec(argv) => set w | w in argv
    case Redir(d, file, _) => Words(d) + {file}
    case Pipe(l, r) => Words(l) + Words(r)
    case List(l, r) => Words(l) + Words(r)
    case Back(d) => Words(d)
  }

  ghost predicate Ends(c: Cmd<Tok>, k: int)
  {
    exists w :: w in Words(c) && w.eq == k
  }

  /** nulterminate: a NUL after each word of the command, and no other change. */
  method NulTerminate(buf: array<char>, c: Cmd<Tok>)
    requires forall w :: w in Words(c) ==> w.eq < buf.Length
    modifies buf
    ensures forall k :: 0 <= k < buf.Length ==> buf[k] == if Ends(c, k) then '\0' else old(buf[k])
    decreases c
  {
    match c {
      case Exec(argv) =>
        for i := 0 to |argv|
          invariant forall k :: 0 <= k < buf.Length ==> buf[k] == if (exists j :: 0 <= j < i && argv[j].eq == k) then '\0' else old(buf[k])
        {
          assert argv[i] in Words(c);
          buf[argv[i].eq] := '\0';
        }
        assert forall j :: 0 <= j < |argv| ==> argv[j] in Words(c);
      case Redir(d, file, _) =>
        assert file in Words(c);
        NulTerminate(buf, d);
        buf[file.eq] := '\0';
      case Pipe(l, r) =>
        NulTerminate(buf, l);
        NulTerminate(buf, r);
      case List(l, r) =>
        NulTerminate(buf, l);
        NulTerminate(buf, r);
      case Back(d) =>
        NulTerminate(buf, d);
    }
  }

  /** The C string at position q. */
  function CString(b: seq<char>, q: nat): (r: seq<char>)
    requires q <= |b|
    decreases |b| - q
  {
    if q == |b| || b[q] == '\0' then [] else [b[q]] + CString(b, q + 1)
  }

  lemma {:induction false} CStringIs(b: seq<char>, q: nat, e: nat)
    requires q <= e < |b| && b[e] == '\0' && forall k :: q <= k < e ==> b[k] != '\0'
    ensures CString(b, q) == b[q..e]
    decreases e - q
  {
    if q < e {
      CStringIs(b, q + 1, e);
      assert b[q..e] == [b[q]] + b[q + 1..e];
    }
  }

  ghost predicate FromTokens(c: Cmd<Tok>, t: seq<Tok>)
  {
    forall w :: w in Words(c) ==> w in t && IsWord(w)
  }

  lemma {:induction false} WrapWords(c: Cmd<Tok>, list: seq<Redirection>, t: seq<Tok>)
    requires FromTokens(c, t) && forall k :: 0 <= k < |list| ==> list[k].file in t && IsWord(list[k].file)
    ensures FromTokens(Wrap(c, list), t)
    decreases |list|
  {
    if list != [] { WrapWords(c, list[..|list| - 1], t); }
  }

  lemma {:induction false} RedirWords(t: seq<Tok>)
    ensures var r := TakeRedirs(t); r.Redirections? ==>
              && (forall k :: 0 <= k < |r.list| ==> r.list[k].file in t && IsWord(r.list[k].file))
              && (forall w :: w in r.rest ==> w in t)
    decreases |t|
  {
    if Next(t, {'<', '>'}) && |t| >= 2 && IsWord(t[1]) { RedirWords(t[2..]); }
  }

  lemma {:induction false} ArgsWords(argv: seq<Tok>, list: seq<Redirection>, t: seq<Tok>, all: seq<Tok>)
    requires forall k :: 0 <= k < |argv| ==> argv[k] in all && IsWord(argv[k])
    requires forall k :: 0 <= k < |list| ==> list[k].file in all && IsWord(list[k].file)
    requires forall w :: w in t ==> w in all
    ensures var r := TakeArgs(argv, list, t); r.Parsed? ==> FromTokens(r.cmd, all) && forall w :: w in r.rest ==> w in all
    decreases |t|
  {
    if t == [] || Next(t, {'|', ')', '&', ';'}) {
      WrapWords(Exec(argv), list, all);
    } else {
      RedirWords(t[1..]);
      var r := TakeRedirs(t[1..]);
      if IsWord(t[0]) && |argv| + 1 < MAXARGS && r.Redirections? {
        ArgsWords(argv + [t[0]], list + r.list, r.rest, all);
      }
    }
  }

  lemma {:induction false} ExecWords(t: seq<Tok>, all: seq<Tok>)
    requires forall w :: w in t ==> w in all
    ensures var r := TakeExec(t); r.Parsed? ==> FromTokens(r.cmd, all) && forall w :: w in r.rest ==> w in all
    decreases |t|, 0
  {
    if Next(t, {'('}) {
      LineWords(t[1..], all);
      var r := TakeLine(t[1..]);
      if r.Parsed? && Next(r.rest, {')'}) {
        RedirWords(r.rest[1..]);
        var d := TakeRedirs(r.rest[1..]);
        if d.Redirections? { WrapWords(r.cmd, d.list, all); }
      }
    } else {
      RedirWords(t);
      var d := TakeRedirs(t);
      if d.Redirections? { ArgsWords([], d.list, d.rest, all); }
    }
  }

  lemma {:induction false} PipeWords(t: seq<Tok>, all: seq<Tok>)
    requires forall w :: w in t ==> w in all
    ensures var r := TakePipe(t); r.Parsed? ==> FromTokens(r.cmd, all) && forall w :: w in r.rest ==> w in all
    decreases |t|, 1
  {
    ExecWords(t, all);
    var l := TakeExec(t);
    if l.Parsed? && Next(l.rest, {'|'}) { PipeWords(l.rest[1..], all); }
  }

  lemma {:induction false} BackWords(c: Cmd<Tok>, t: seq<Tok>, all: seq<Tok>)
    requires FromTokens(c, all) && forall w :: w in t ==> w in all
    ensures var r := TakeBacks(c, t); FromTokens(r.cmd, all) && forall w :: w in r.rest ==> w in all
    decreases |t|
  {
    if Next(t, {'&'}) { BackWords(Back(c), t[1..], all); }
  }

  lemma {:induction false} LineWords(t: seq<Tok>, all: seq<Tok>)
    requires forall w :: w in t ==> w in all
    ensures var r := TakeLine(t); r.Parsed? ==> FromTokens(r.cmd, all) && forall w :: w in r.rest ==> w in all
    decreases |t|, 2
  {
    PipeWords(t, all);
    var p := TakePipe(t);
    if p.Parsed? {
      BackWords(p.cmd, p.rest, all);
      var b := TakeBacks(p.cmd, p.rest);
      if Next(b.rest, {';'}) { LineWords(b.rest[1..], all); }
    }
  }

  /** A whole word keeps its characters when the ends of words become NUL. */
  lemma WordSurvives(s: seq<char>, b: seq<char>, c: Cmd<Tok>, w: Tok)
    requires |b| == |s| + 1 && (forall k :: 0 <= k < |s| ==> s[k] != '\0')
    requires forall v :: v in Words(c) ==> WholeWord(s, v)
    requires forall k :: 0 <= k < |s| ==> b[k] == if Ends(c, k) then '\0' else s[k]
    requires b[|s|] == '\0' && w in Words(c)
    ensures w.q < |b| && CString(b, w.q) == w.text
  {
    assert WholeWord(s, w);
    forall k | w.q <= k < w.eq ensures b[k] == s[k] {
      forall v | v in Words(c) ensures v.eq != k { assert WholeWord(s, v); }
    }
    assert w.eq < |s| ==> Ends(c, w.eq);
    CStringIs(b, w.q, w.eq);
    assert b[w.q..w.eq] == s[w.q..w.eq];
  }

  /** parsecmd on a NUL-terminated buffer.  It succeeds exactly when the grammar takes the whole
      line, and then every word and file name is a C string equal to its token. */
  method ParseCmd(buf: array<char>, n: nat) returns (r: Option<Cmd<Tok>>)
    requires buf.Length == n + 1 && buf[n] == '\0' && forall k :: 0 <= k < n ==> buf[k] != '\0'
    modifies buf
    ensures r.Some? <==> TakeLine(Lex(old(buf[..n]), 0)).Parsed? && TakeLine(Lex(old(buf[..n]), 0)).rest == []
    ensures r.Some? ==> TakeLine(Lex(old(buf[..n]), 0)).cmd == r.value
    ensures r.None? || (FewArgs(r.value) && Sound(Lex(old(buf[..n]), 0), []))
    ensures r.Some? ==> forall w :: w in Words(r.value) ==> w.q < buf.Length && CString(buf[..], w.q) == w.text
  {
    var s := buf[..n];
    var i;
    r, i := ParseLine(s, 0);
    if r.None? {
      return;
    }
    var any;
    any, i := Peek(s, i, {});
    LexAt(s, i);
    if i != |s| {
      return None;
    }
    var c := r.value;
    LineWords(Lex(s, 0), Lex(s, 0));
    LineSound(Lex(s, 0));
    assert forall w :: w in Words(c) ==> WholeWord(s, w);
    NulTerminate(buf, c);
    forall w | w in Words(c) ensures w.q < buf.Length && CString(buf[..], w.q) == w.text {
      WordSurvives(s, buf[..], c, w);
    }
  }
}
