/** The pattern matcher of grep.c, after chapter 9 of The Practice of Programming, against a
    declarative meaning of patterns. */
module Grep {
  /** What a pattern is made of: a character, any number of a character, the end of the text.
      The character '.' stands for any. */
  datatype Atom = One(c: char) | Many(c: char) | End

  function Atoms(re: seq<char>): (r: seq<Atom>)
  {
    if re == [] then []
    else if |re| > 1 && re[1] == '*' then [Many(re[0])] + Atoms(re[2..])
    else if re == ['$'] then [End]
    else [One(re[0])] + Atoms(re[1..])
  }

  predicate Fits(c: char, x: char)
  {
    c == '.' || c == x
  }

  /** The atom accounts for exactly text[i..j]. */
  predicate Covers(a: Atom, text: seq<char>, i: nat, j: nat)
  {
    i <= j <= |text| &&
    match a
    case One(c) => j == i + 1 && Fits(c, text[i])
    case Many(c) => forall k :: i <= k < j ==> Fits(c, text[k])
    case End => i == j == |text|
  }

  /** The cuts divide a stretch of the text that begins at i among the atoms. */
  ghost predicate Divides(atoms: seq<Atom>, text: seq<char>, i: nat, cuts: seq<nat>)
  {
    |cuts| == |atoms| + 1 && cuts[0] == i <= |text| &&
    forall k :: 0 <= k < |atoms| ==> Covers(atoms[k], text, cuts[k], cuts[k + 1])
  }

  /** The pattern matches the text from position i on. */
  ghost predicate MatchesAt(atoms: seq<Atom>, text: seq<char>, i: nat)
  {
    exists cuts :: Divides(atoms, text, i, cuts)
  }

  /** The meaning of a whole pattern: it matches somewhere, or at the start if it begins with ^. */
  ghost predicate Meaning(re: seq<char>, text: seq<char>)
  {
    if re != [] && re[0] == '^' then MatchesAt(Atoms(re[1..]), text, 0)
    else exists i :: 0 <= i <= |text| && MatchesAt(Atoms(re), text, i)
  }

  lemma NoAtoms(text: seq<char>, i: nat)
    requires i <= |text|
    ensures MatchesAt([], text, i)
  {
    assert Divides([], text, i, [i]);
  }

  /** A pattern matches at i exactly when its first atom covers some text[i..j] and the rest
      matches at j. */
  lemma FirstAtom(a: Atom, rest: seq<Atom>, text: seq<char>, i: nat)
    ensures MatchesAt([a] + rest, text, i) <==> exists j: nat :: Covers(a, text, i, j) && MatchesAt(rest, text, j)
  {
    var all := [a] + rest;
    if MatchesAt(all, text, i) {
      var cuts :| Divides(all, text, i, cuts);
      var tail := cuts[1..];
      assert Covers(all[0], text, cuts[0], cuts[1]);
      forall k | 0 <= k < |rest| ensures Covers(rest[k], text, tail[k], tail[k + 1]) {
        assert Covers(all[k + 1], text, cuts[k + 1], cuts[k + 2]);
      }
      assert Divides(rest, text, cuts[1], tail);
      assert MatchesAt(rest, text, cuts[1]);
    }
    if j :| Covers(a, text, i, j) && MatchesAt(rest, text, j) {
      var tail :| Divides(rest, text, j, tail);
      var cuts := [i] + tail;
      forall k | 0 <= k < |all| ensures Covers(all[k], text, cuts[k], cuts[k + 1]) {
        if k > 0 { assert Covers(rest[k - 1], text, tail[k - 1], tail[k]); }
      }
      assert Divides(all, text, i, cuts);
    }
  }

  /** matchhere's and matchstar's cases, for the meaning: nothing matches anywhere; $ the end; a
      character or . one character; and a star none of its character, or one and itself again. */
  lemma {:induction false} Cases(c: char, rest: seq<Atom>, text: seq<char>, i: nat)
    requires i <= |text|
    ensures MatchesAt([], text, i)
    ensures MatchesAt([End] + rest, text, i) <==> i == |text| && MatchesAt(rest, text, i)
    ensures MatchesAt([One(c)] + rest, text, i) <==> i < |text| && (c == '.' || c == text[i]) && MatchesAt(rest, text, i + 1)
    ensures MatchesAt([Many(c)] + rest, text, i)
            <==> MatchesAt(rest, text, i) || (i < |text| && (c == '.' || c == text[i]) && MatchesAt([Many(c)] + rest, text, i + 1))
  {
    NoAtoms(text, i);
    FirstAtom(End, rest, text, i);
    FirstAtom(One(c), rest, text, i);
    FirstAtom(Many(c), rest, text, i);
    FirstAtom(Many(c), rest, text, i + 1);
    if MatchesAt(rest, text, i) { assert Covers(Many(c), text, i, i); }
    if i < |text| && (c == '.' || c == text[i]) {
      assert Covers(One(c), text, i, i + 1);
      forall j: nat | j > i ensures Covers(Many(c), text, i, j) <==> Covers(Many(c), text, i + 1, j) { }
    }
    assert i == |text| ==> Covers(End, text, i, i);
  }

  lemma StarStep(c: char, rest: seq<Atom>, text: seq<char>, start: nat, i: nat)
    requires start <= i <= |text| && Covers(Many(c), text, start, i)
    requires forall j :: start <= j <= i ==> !MatchesAt(rest, text, j)
    requires i == |text| || !Fits(c, text[i])
    ensures !MatchesAt([Many(c)] + rest, text, start)
  {
    FirstAtom(Many(c), rest, text, start);
    forall j: nat | Covers(Many(c), text, start, j) ensures j <= i { }
  }

  /** matchhere at text[i..]. */
  method MatchHere(re: seq<char>, text: seq<char>, i: nat) returns (b: bool)
    requires i <= |text|
    ensures b <==> MatchesAt(Atoms(re), text, i)
    decreases |re|, 0
  {
    if re == [] {
      NoAtoms(text, i);
      return true;
    }
    if |re| > 1 && re[1] == '*' {
      b := MatchStar(re[0], re[2..], text, i);
      return;
    }
    if re == ['$'] {
      FirstAtom(End, [], text, i);
      NoAtoms(text, i);
      assert [End] + [] == [End];
      assert i == |text| ==> Covers(End, text, i, i);
      return i == |text|;
    }
    FirstAtom(One(re[0]), Atoms(re[1..]), text, i);
    if i < |text| && (re[0] == '.' || re[0] == text[i]) {
      assert Covers(One(re[0]), text, i, i + 1);
      b := MatchHere(re[1..], text, i + 1);
      return;
    }
    return false;
  }

  /** matchstar: c*re at text[i..]. */
  method MatchStar(c: char, re: seq<char>, text: seq<char>, start: nat) returns (b: bool)
    requires start <= |text|
    ensures b <==> MatchesAt([Many(c)] + Atoms(re), text, start)
    decreases |re|, 1
  {
    var i := start;
    while true
      invariant start <= i <= |text| && Covers(Many(c), text, start, i)
      invariant forall j :: start <= j < i ==> !MatchesAt(Atoms(re), text, j)
      decreases |text| - i
    {
      b := MatchHere(re, text, i);
      if b {
        FirstAtom(Many(c), Atoms(re), text, start);
        return;
      }
      if !(i < |text| && (text[i] == c || c == '.')) {
        StarStep(c, Atoms(re), text, start, i);
        return false;
      }
      i := i + 1;
    }
  }

  /** match: 1 exactly when the pattern matches. */
  method Match(re: seq<char>, text: seq<char>) returns (b: bool)
    ensures b <==> Meaning(re, text)
  {
    if re != [] && re[0] == '^' {
      b := MatchHere(re[1..], text, 0);
      return;
    }
    var i := 0;
    while true
      invariant 0 <= i <= |text| && forall j :: 0 <= j < i ==> !MatchesAt(Atoms(re), text, j)
      decreases |text| - i
    {
      b := MatchHere(re, text, i);
      if b {
        return;
      }
      if i == |text| {
        return false;
      }
      i := i + 1;
    }
  }
}
