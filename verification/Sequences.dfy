/** Sequences and finite sets. */
module Sequences {
  /** s without its element at k. */
  function Cut<T>(s: seq<T>, k: nat): (r: seq<T>)
    requires k < |s|
  {
    s[..k] + s[k + 1..]
  }

  lemma {:induction false} SubsetCount<T>(s: set<T>, t: set<T>)
    requires s <= t
    ensures |s| <= |t|
  {
    assert t == s + (t - s);
  }

  /** How many elements of s have the property. */
  ghost function Count<T>(s: seq<T>, p: T -> bool): (n: nat)
    ensures n <= |s|
  {
    if s == [] then 0 else Count(s[..|s| - 1], p) + if p(s[|s| - 1]) then 1 else 0
  }

  lemma {:induction false} CountSame<T>(s: seq<T>, t: seq<T>, p: T -> bool)
    requires |t| == |s| && forall j :: 0 <= j < |s| ==> p(t[j]) == p(s[j])
    ensures Count(t, p) == Count(s, p)
    decreases |s|
  {
    if s != [] {
      var m := |s| - 1;
      assert p(t[m]) == p(s[m]);
      forall j | 0 <= j < m ensures p(t[..m][j]) == p(s[..m][j]) { assert p(t[j]) == p(s[j]); }
      CountSame(s[..m], t[..m], p);
    }
  }

  /** The element at k loses the property. */
  lemma {:induction false} CountLess<T>(s: seq<T>, t: seq<T>, p: T -> bool, k: nat)
    requires |t| == |s| && k < |s| && p(s[k]) && !p(t[k])
    requires forall j :: 0 <= j < |s| && j != k ==> p(t[j]) == p(s[j])
    ensures Count(t, p) == Count(s, p) - 1
    decreases |s|
  {
    var m := |s| - 1;
    if k < m {
      assert p(t[m]) == p(s[m]);
      forall j | 0 <= j < m && j != k ensures p(t[..m][j]) == p(s[..m][j]) { assert p(t[j]) == p(s[j]); }
      CountLess(s[..m], t[..m], p, k);
    } else {
      forall j | 0 <= j < m ensures p(t[..m][j]) == p(s[..m][j]) { assert p(t[j]) == p(s[j]); }
      CountSame(s[..m], t[..m], p);
    }
  }

  lemma {:induction false} CountNone<T>(s: seq<T>, p: T -> bool)
    ensures Count(s, p) == 0 <==> forall j :: 0 <= j < |s| ==> !p(s[j])
    decreases |s|
  {
    if s != [] {
      var m := |s| - 1;
      CountNone(s[..m], p);
      if forall j :: 0 <= j < m ==> !p(s[..m][j]) {
        forall j | 0 <= j < m ensures !p(s[j]) { assert !p(s[..m][j]); }
      } else {
        var j :| 0 <= j < m && p(s[..m][j]);
        assert p(s[j]);
      }
    }
  }

  lemma {:induction false} CountAll<T>(s: seq<T>, p: T -> bool)
    requires forall j :: 0 <= j < |s| ==> p(s[j])
    ensures Count(s, p) == |s|
    decreases |s|
  {
    if s != [] {
      var t := s[..|s| - 1];
      forall j | 0 <= j < |t| ensures p(t[j]) { assert p(s[j]); }
      CountAll(t, p);
    }
  }
}
