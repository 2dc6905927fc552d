/** Occurrences of one id sequence inside another, and the left-maximal ones.

    A string is left-maximal in a text when no single id can be put in front of it without
    losing an occurrence. These strings are what the states of a suffix automaton stand for. */
module Substrings {

  type Id = int

  /** x is read at positions i, i + 1, ... of s. */
  predicate OccursAt(s: seq<Id>, x: seq<Id>, i: int) {
    0 <= i && i + |x| <= |s| && forall k :: 0 <= k < |x| ==> x[k] == s[i + k]
  }

  ghost predicate Occurs(s: seq<Id>, x: seq<Id>) {
    exists i :: OccursAt(s, x, i)
  }

  predicate IsSuffix(x: seq<Id>, y: seq<Id>) {
    OccursAt(y, x, |y| - |x|)
  }

  /** Two occurrences of x with different ids in front of them. */
  ghost predicate TwoContexts(s: seq<Id>, x: seq<Id>, i: int, j: int) {
    0 < i && 0 < j && OccursAt(s, x, i) && OccursAt(s, x, j) && s[i - 1] != s[j - 1]
  }

  ghost predicate Maximal(s: seq<Id>, x: seq<Id>) {
    OccursAt(s, x, 0) || exists i, j :: TwoContexts(s, x, i, j)
  }

  /** y is the shortest left-maximal string that ends in x: the longest string of x's class. */
  ghost predicate Shortest(s: seq<Id>, x: seq<Id>, y: seq<Id>) {
    && Maximal(s, y)
    && IsSuffix(x, y)
    && forall m {:trigger Maximal(s, m)} :: Maximal(s, m) && IsSuffix(x, m) ==> |y| <= |m|
  }

  /** z is the longest suffix of s + [c] that occurs in s. */
  ghost predicate LongestOld(s: seq<Id>, c: Id, z: seq<Id>) {
    && IsSuffix(z, s + [c])
    && Occurs(s, z)
    && forall y {:trigger Occurs(s, y)} :: Occurs(s, y) && IsSuffix(y, s + [c]) ==> |y| <= |z|
  }

  // ------------------------------------------------------------------ suffixes

  lemma {:induction false} SuffixTransitive(x: seq<Id>, y: seq<Id>, z: seq<Id>)
    requires IsSuffix(x, y) && IsSuffix(y, z)
    ensures IsSuffix(x, z)
  {
    forall k | 0 <= k < |x| ensures x[k] == z[|z| - |x| + k] {
      assert x[k] == y[|y| - |x| + k];
    }
  }

  lemma {:induction false} SuffixesNest(x: seq<Id>, y: seq<Id>, z: seq<Id>)
    requires IsSuffix(x, z) && IsSuffix(y, z) && |x| <= |y|
    ensures IsSuffix(x, y)
    ensures |x| == |y| ==> x == y
  {
    forall k | 0 <= k < |x| ensures x[k] == y[|y| - |x| + k] {
      assert y[|y| - |x| + k] == z[|z| - |x| + k];
    }
  }

  lemma {:induction false} SuffixAppend(x: seq<Id>, y: seq<Id>, c: Id)
    ensures IsSuffix(x + [c], y + [c]) <==> IsSuffix(x, y)
  {
    if IsSuffix(x + [c], y + [c]) {
      forall k | 0 <= k < |x| ensures x[k] == y[|y| - |x| + k] {
        assert (x + [c])[k] == (y + [c])[|y| - |x| + k];
      }
    }
  }

  lemma {:induction false} SuffixSplit(x: seq<Id>, y: seq<Id>, d: Id, c: Id)
    requires IsSuffix(x + [d], y + [c])
    ensures d == c && IsSuffix(x, y)
  {
    assert (x + [d])[|x|] == (y + [c])[|y|];
    SuffixAppend(x, y, c);
  }

  // ------------------------------------------------------------------ occurrences

  lemma {:induction false} OccursInside(s: seq<Id>, x: seq<Id>, y: seq<Id>, i: int)
    requires OccursAt(s, y, i) && IsSuffix(x, y)
    ensures OccursAt(s, x, i + |y| - |x|)
  {
    forall k | 0 <= k < |x| ensures x[k] == s[i + |y| - |x| + k] {
      assert y[|y| - |x| + k] == s[i + |y| - |x| + k];
    }
  }

  lemma {:induction false} OccursSuffix(s: seq<Id>, x: seq<Id>, y: seq<Id>)
    requires Occurs(s, y) && IsSuffix(x, y)
    ensures Occurs(s, x)
  {
    var i :| OccursAt(s, y, i);
    OccursInside(s, x, y, i);
  }

  lemma {:induction false} OccursAtPrefix(s: seq<Id>, x: seq<Id>, d: Id, i: int)
    ensures OccursAt(s, x + [d], i) <==> OccursAt(s, x, i) && i + |x| < |s| && s[i + |x|] == d
  {
    if OccursAt(s, x + [d], i) {
      assert (x + [d])[|x|] == d;
      forall k | 0 <= k < |x| ensures x[k] == s[i + k] {
        assert (x + [d])[k] == x[k];
      }
    }
  }

  lemma {:induction false} OccursPrefix(s: seq<Id>, x: seq<Id>, d: Id)
    requires Occurs(s, x + [d])
    ensures Occurs(s, x)
  {
    var i :| OccursAt(s, x + [d], i);
    OccursAtPrefix(s, x, d, i);
  }

  lemma {:induction false} OccursAtCons(s: seq<Id>, x: seq<Id>, a: Id, i: int)
    ensures OccursAt(s, [a] + x, i) <==> 0 <= i && OccursAt(s, x, i + 1) && s[i] == a
  {
    if OccursAt(s, [a] + x, i) {
      assert ([a] + x)[0] == a;
      forall k | 0 <= k < |x| ensures x[k] == s[i + 1 + k] {
        assert ([a] + x)[k + 1] == x[k];
      }
    }
  }

  lemma {:induction false} SuffixCons(x: seq<Id>, a: Id, y: seq<Id>)
    ensures IsSuffix([a] + x, y) <==> IsSuffix(x, y) && |x| < |y| && y[|y| - |x| - 1] == a
  {
    OccursAtCons(y, x, a, |y| - |x| - 1);
  }

  lemma {:induction false} MaximalOccurs(s: seq<Id>, x: seq<Id>)
    requires Maximal(s, x)
    ensures Occurs(s, x)
  {
    if !OccursAt(s, x, 0) {
      var i, j :| TwoContexts(s, x, i, j);
      assert OccursAt(s, x, i);
    }
  }

  lemma {:induction false} SameEnd(s: seq<Id>, x: seq<Id>, y: seq<Id>, i: int, j: int)
    requires OccursAt(s, x, i) && OccursAt(s, y, j) && i + |x| == j + |y| && |x| <= |y|
    ensures IsSuffix(x, y)
  {
    forall k | 0 <= k < |x| ensures x[k] == y[|y| - |x| + k] {
      assert x[k] == s[i + k];
    }
  }

  /** All occurrences of a string that is not left-maximal have the same id in front. */
  lemma {:induction false} SameContext(s: seq<Id>, x: seq<Id>, i: int, j: int)
    requires !Maximal(s, x) && OccursAt(s, x, i) && OccursAt(s, x, j)
    ensures 0 < i && 0 < j && s[i - 1] == s[j - 1]
  {
    assert !TwoContexts(s, x, i, j);
  }

  lemma {:induction false} ShortestOfMaximal(s: seq<Id>, x: seq<Id>, y: seq<Id>)
    requires Shortest(s, x, y) && Maximal(s, x)
    ensures y == x
  {
    assert IsSuffix(x, x);
    SuffixesNest(x, y, y);
  }

  lemma {:induction false} ShortestCons(s: seq<Id>, x: seq<Id>, y: seq<Id>, i: int)
    requires Shortest(s, x, y) && OccursAt(s, x, i) && !Maximal(s, x)
    ensures 0 < i && |x| < |y| && Shortest(s, [s[i - 1]] + x, y)
  {
    MaximalOccurs(s, y);
    var k :| OccursAt(s, y, k);
    OccursInside(s, x, y, k);
    SameContext(s, x, i, k + |y| - |x|);
    if |x| == |y| {
      SuffixesNest(x, y, y);
      assert false;
    }
    var a := s[i - 1];
    assert y[|y| - |x| - 1] == a;
    SuffixCons(x, a, y);
    forall m | Maximal(s, m) && IsSuffix([a] + x, m)
      ensures |y| <= |m|
    {
      SuffixCons(x, a, m);
    }
  }

  /** Every occurrence of x extends to one of the longest string of its class. */
  lemma {:induction false} ClassExtends(s: seq<Id>, x: seq<Id>, y: seq<Id>, i: int)
    requires Shortest(s, x, y) && OccursAt(s, x, i)
    ensures OccursAt(s, y, i - (|y| - |x|))
    decreases |y| - |x|
  {
    if Maximal(s, x) {
      ShortestOfMaximal(s, x, y);
    } else {
      ShortestCons(s, x, y, i);
      OccursAtCons(s, x, s[i - 1], i - 1);
      ClassExtends(s, [s[i - 1]] + x, y, i - 1);
    }
  }

  lemma {:induction false} ShortestIsSuffix(s: seq<Id>, x: seq<Id>, y: seq<Id>, m: seq<Id>)
    requires Shortest(s, x, y) && Maximal(s, m) && IsSuffix(x, m)
    ensures IsSuffix(y, m)
  {
    MaximalOccurs(s, m);
    var i :| OccursAt(s, m, i);
    OccursInside(s, x, m, i);
    ClassExtends(s, x, y, i + |m| - |x|);
    SameEnd(s, y, m, i + |m| - |y|, i);
  }

  lemma {:induction false} ClassContinuesAt(s: seq<Id>, x: seq<Id>, y: seq<Id>, d: Id, i: int)
    requires Shortest(s, x, y) && OccursAt(s, x + [d], i)
    ensures OccursAt(s, y + [d], i - (|y| - |x|))
  {
    OccursAtPrefix(s, x, d, i);
    ClassExtends(s, x, y, i);
    OccursAtPrefix(s, y, d, i - (|y| - |x|));
  }

  /** Two strings of one class have the same continuations. */
  lemma {:induction false} ClassContinues(s: seq<Id>, x: seq<Id>, y: seq<Id>, d: Id)
    requires Shortest(s, x, y)
    ensures Occurs(s, x + [d]) <==> Occurs(s, y + [d])
  {
    SuffixAppend(x, y, d);
    if Occurs(s, x + [d]) {
      var i :| OccursAt(s, x + [d], i);
      ClassContinuesAt(s, x, y, d, i);
    } else if Occurs(s, y + [d]) {
      OccursSuffix(s, x + [d], y + [d]);
    }
  }

  /** A left-maximal string that ends in x + [d] ends in y + [d] too. */
  lemma {:induction false} ClassContinuesMaximal(s: seq<Id>, x: seq<Id>, y: seq<Id>, d: Id, m: seq<Id>)
    requires Shortest(s, x, y) && Maximal(s, m) && IsSuffix(x + [d], m)
    ensures IsSuffix(y + [d], m)
  {
    if |y| < |m| {
      MaximalOccurs(s, m);
      var i :| OccursAt(s, m, i);
      OccursInside(s, x + [d], m, i);
      ClassContinuesAt(s, x, y, d, i + |m| - |x| - 1);
      SameEnd(s, y + [d], m, i + |m| - |y| - 1, i);
    } else {
      forall i | OccursAt(s, m, i)
        ensures 0 < i && s[i - 1] == y[|y| - |m|]
      {
        OccursInside(s, x + [d], m, i);
        ClassContinuesAt(s, x, y, d, i + |m| - |x| - 1);
        assert (y + [d])[|y| - |m|] == y[|y| - |m|];
      }
      if i, j :| TwoContexts(s, m, i, j) {
        assert false;
      }
    }
  }

  lemma {:induction false} ClassContinuesTo(s: seq<Id>, x: seq<Id>, y: seq<Id>, d: Id, t: seq<Id>)
    requires Shortest(s, x, y) && Shortest(s, y + [d], t)
    ensures Shortest(s, x + [d], t)
  {
    SuffixAppend(x, y, d);
    SuffixTransitive(x + [d], y + [d], t);
    forall m | Maximal(s, m) && IsSuffix(x + [d], m)
      ensures |t| <= |m|
    {
      ClassContinuesMaximal(s, x, y, d, m);
    }
  }

  // ------------------------------------------------------------------ appending one id

  lemma {:induction false} OccursAtAppend(s: seq<Id>, c: Id, x: seq<Id>, i: int)
    ensures OccursAt(s + [c], x, i) <==>
            OccursAt(s, x, i) || (IsSuffix(x, s + [c]) && i == |s| + 1 - |x|)
  {
    var t := s + [c];
    if OccursAt(t, x, i) && i + |x| <= |s| {
      forall k | 0 <= k < |x| ensures x[k] == s[i + k] {
        assert x[k] == t[i + k];
      }
    }
  }

  lemma {:induction false} OccursAppend(s: seq<Id>, c: Id, x: seq<Id>)
    ensures Occurs(s + [c], x) <==> Occurs(s, x) || IsSuffix(x, s + [c])
  {
    if Occurs(s, x) {
      var i :| OccursAt(s, x, i);
      OccursAtAppend(s, c, x, i);
    } else if IsSuffix(x, s + [c]) {
      assert OccursAt(s + [c], x, |s| + 1 - |x|);
    } else if Occurs(s + [c], x) {
      var i :| OccursAt(s + [c], x, i);
      OccursAtAppend(s, c, x, i);
    }
  }

  lemma {:induction false} MaximalStays(s: seq<Id>, c: Id, x: seq<Id>)
    requires Maximal(s, x)
    ensures Maximal(s + [c], x)
  {
    if OccursAt(s, x, 0) {
      OccursAtAppend(s, c, x, 0);
    } else {
      var i, j :| TwoContexts(s, x, i, j);
      OccursAtAppend(s, c, x, i);
      OccursAtAppend(s, c, x, j);
      assert TwoContexts(s + [c], x, i, j);
    }
  }

  lemma {:induction false} OldSuffixIsShorter(s: seq<Id>, c: Id, z: seq<Id>, y: seq<Id>, i: int)
    requires LongestOld(s, c, z) && OccursAt(s, y, i) && IsSuffix(y, s + [c])
    ensures |y| <= |z|
  {
    assert Occurs(s, y);
  }

  lemma {:induction false} WholeText(t: seq<Id>, x: seq<Id>)
    requires OccursAt(t, x, 0)
    ensures |x| == |t| ==> x == t
  {}

  lemma {:induction false} LongestOldIsMaximal(s: seq<Id>, c: Id, z: seq<Id>)
    requires LongestOld(s, c, z)
    ensures Maximal(s + [c], z)
  {
    var t := s + [c];
    var i :| OccursAt(s, z, i);
    OccursAtAppend(s, c, z, i);
    var k := |t| - |z|;
    if 0 < i && t[i - 1] == t[k - 1] {
      OccursAtCons(s, z, t[k - 1], i - 1);
      SuffixCons(z, t[k - 1], t);
      OldSuffixIsShorter(s, c, z, [t[k - 1]] + z, i - 1);
    } else if 0 < i {
      assert TwoContexts(t, z, i, k);
    }
  }

  /** A suffix of the new text that is shorter than the longest old one has no new context. */
  lemma {:induction false} NoNewContext(s: seq<Id>, c: Id, z: seq<Id>, x: seq<Id>)
    requires LongestOld(s, c, z) && IsSuffix(x, s + [c]) && |x| < |z|
    ensures exists e :: 0 < e && OccursAt(s, x, e) && s[e - 1] == (s + [c])[|s| - |x|]
  {
    var t := s + [c];
    SuffixesNest(x, z, t);
    var k :| OccursAt(s, z, k);
    OccursInside(s, x, z, k);
    var e := k + |z| - |x|;
    assert z[|z| - |x| - 1] == s[e - 1];
    assert z[|z| - |x| - 1] == t[|t| - |x| - 1];
    assert 0 < e && OccursAt(s, x, e) && s[e - 1] == t[|s| - |x|];
  }

  lemma {:induction false} NotNewMaximal(s: seq<Id>, c: Id, z: seq<Id>, x: seq<Id>)
    requires LongestOld(s, c, z) && !Maximal(s, x) && x != s + [c] && x != z
    ensures !Maximal(s + [c], x)
  {
    var t := s + [c];
    if OccursAt(t, x, 0) {
      OccursAtAppend(s, c, x, 0);
      WholeText(t, x);
    } else if i, j :| TwoContexts(t, x, i, j) {
      OccursAtAppend(s, c, x, i);
      OccursAtAppend(s, c, x, j);
      if OccursAt(s, x, i) && OccursAt(s, x, j) {
        SameContext(s, x, i, j);
      } else {
        assert Occurs(s, x);
        SuffixesNest(x, z, t);
        NoNewContext(s, c, z, x);
        var e :| 0 < e && OccursAt(s, x, e) && s[e - 1] == t[|s| - |x|];
        SameContext(s, x, e, if OccursAt(s, x, i) then i else j);
      }
      assert false;
    }
  }

  /** The only strings that can become left-maximal are the whole new text and the longest
      suffix that already occurred. */
  lemma {:induction false} MaximalAppend(s: seq<Id>, c: Id, z: seq<Id>, x: seq<Id>)
    requires LongestOld(s, c, z)
    ensures Maximal(s + [c], x) <==> Maximal(s, x) || x == s + [c] || x == z
  {
    if Maximal(s, x) {
      MaximalStays(s, c, x);
    } else if x == s + [c] {
      assert OccursAt(s + [c], x, 0);
    } else if x == z {
      LongestOldIsMaximal(s, c, z);
    } else {
      NotNewMaximal(s, c, z, x);
    }
  }
}
