/** The online suffix automaton behind the longest-suffix drafter.

    Every state stands for one left-maximal string of the text read so far (its longest
    string); links and edges are then determined by those strings, and the invariant says
    that the tables hold exactly those links and edges. */
module SuffixAutomata {
  import opened Substrings

  type Edges = map<Id, nat>

  // ------------------------------------------------------------------ what the tables mean

  /** The states are exactly the left-maximal strings of s, each once, the empty one first. */
  ghost predicate StatesOf(s: seq<Id>, w: seq<seq<Id>>) {
    && |w| > 0 && w[0] == []
    && (forall u, v :: 0 <= u < v < |w| ==> w[u] != w[v])
    && (forall v {:trigger Maximal(s, w[v])} :: 0 <= v < |w| ==> Maximal(s, w[v]))
    && (forall x {:trigger Maximal(s, x)} :: Maximal(s, x) ==> x in w)
  }

  /** u is the state of the longest proper suffix of w[v] that has a state. */
  ghost predicate LinksTo(w: seq<seq<Id>>, v: nat, u: int)
    requires v < |w|
  {
    && 0 <= u < |w| && |w[u]| < |w[v]| && IsSuffix(w[u], w[v])
    && forall k {:trigger IsSuffix(w[k], w[v])} ::
         0 <= k < |w| && |w[k]| < |w[v]| && IsSuffix(w[k], w[v]) ==> |w[k]| <= |w[u]|
  }

  ghost predicate LinksOf(w: seq<seq<Id>>, link: seq<int>) {
    && |link| == |w| > 0 && link[0] == -1
    && forall v {:trigger LinksTo(w, v, link[v])} :: 0 < v < |w| ==> LinksTo(w, v, link[v])
  }

  /** x has an edge on d exactly when x + [d] occurs, and it leads to that string's class. */
  ghost predicate EdgeOf(s: seq<Id>, w: seq<seq<Id>>, x: seq<Id>, d: Id, e: Edges) {
    && (d in e <==> Occurs(s, x + [d]))
    && (d in e ==> e[d] < |w| && Shortest(s, x + [d], w[e[d]]))
  }

  ghost predicate EdgesOf(s: seq<Id>, w: seq<seq<Id>>, nxt: seq<Edges>) {
    && |nxt| == |w|
    && forall v, d {:trigger EdgeOf(s, w, w[v], d, nxt[v])} :: 0 <= v < |w| ==> EdgeOf(s, w, w[v], d, nxt[v])
  }

  ghost predicate GraphOf(s: seq<Id>, w: seq<seq<Id>>, nxt: seq<Edges>, link: seq<int>) {
    StatesOf(s, w) && LinksOf(w, link) && EdgesOf(s, w, nxt)
  }

  // ------------------------------------------------------------------ walking the links

  /** The length of state p's string, or -1 past the root. */
  ghost function Depth(w: seq<seq<Id>>, p: int): int {
    if 0 <= p < |w| then |w[p]| else -1
  }

  /** p is a stop on the link path of y: past the root, or the state of a suffix of y. */
  ghost predicate OnPath(w: seq<seq<Id>>, y: seq<Id>, p: int) {
    p == -1 || (0 <= p < |w| && IsSuffix(w[p], y))
  }

  /** One link down the path of y skips no state. */
  lemma {:induction false} PathStep(s: seq<Id>, w: seq<seq<Id>>, link: seq<int>, y: seq<Id>, p: int, v: int)
    requires StatesOf(s, w) && LinksOf(w, link)
    requires p != -1 && OnPath(w, y, p)
    requires 0 <= v < |w| && IsSuffix(w[v], y)
    ensures OnPath(w, y, link[p]) && Depth(w, link[p]) < Depth(w, p)
    ensures |w[v]| > Depth(w, link[p]) <==> |w[v]| > Depth(w, p) || v == p
  {
    if p != 0 {
      assert LinksTo(w, p, link[p]);
      SuffixTransitive(w[link[p]], w[p], y);
    }
    if |w[v]| <= |w[p]| {
      SuffixesNest(w[v], w[p], y);
    }
  }

  /** Following a link passes exactly the state it leaves, among all the states on the path. */
  lemma {:induction false} DownPath(s: seq<Id>, w: seq<seq<Id>>, link: seq<int>, y: seq<Id>, p: int)
    requires StatesOf(s, w) && LinksOf(w, link) && p != -1 && OnPath(w, y, p)
    ensures OnPath(w, y, link[p]) && Depth(w, link[p]) < Depth(w, p)
    ensures forall v :: 0 <= v < |w| && IsSuffix(w[v], y) ==>
              (|w[v]| > Depth(w, link[p]) <==> |w[v]| > Depth(w, p) || v == p)
  {
    forall v | 0 <= v < |w| && IsSuffix(w[v], y)
      ensures |w[v]| > Depth(w, link[p]) <==> |w[v]| > Depth(w, p) || v == p
    {
      PathStep(s, w, link, y, p, v);
    }
    PathStep(s, w, link, y, p, p);
  }

  /** A suffix of s that is followed by c somewhere extends to a state with that property. */
  lemma {:induction false} ExtendToState(s: seq<Id>, x: seq<Id>, c: Id) returns (m: seq<Id>)
    requires IsSuffix(x, s) && Occurs(s, x + [c])
    ensures Maximal(s, m) && IsSuffix(m, s) && |x| <= |m| && Occurs(s, m + [c])
    decreases |s| - |x|
  {
    if Maximal(s, x) {
      m := x;
    } else {
      var i :| OccursAt(s, x + [c], i);
      OccursAtPrefix(s, x, c, i);
      var k := |s| - |x|;
      SameContext(s, x, i, k);
      var a := s[k - 1];
      SuffixCons(x, a, s);
      OccursAtCons(s, x + [c], a, i - 1);
      assert [a] + (x + [c]) == ([a] + x) + [c];
      m := ExtendToState(s, [a] + x, c);
    }
  }

  lemma {:induction false} StateHasEdge(s: seq<Id>, w: seq<seq<Id>>, nxt: seq<Edges>, m: seq<Id>, c: Id)
    requires StatesOf(s, w) && EdgesOf(s, w, nxt) && Maximal(s, m)
    ensures exists v :: 0 <= v < |w| && w[v] == m && EdgeOf(s, w, m, c, nxt[v])
  {
    var v :| 0 <= v < |w| && w[v] == m;
    assert EdgeOf(s, w, w[v], c, nxt[v]);
  }

  /** Where the walk down the links of the last state stops: p is the first state with an edge
      on c, or -1; every state above it on the path has none. */
  ghost predicate Stopped(s: seq<Id>, c: Id, w: seq<seq<Id>>, nxt: seq<Edges>, p: int)
    requires |nxt| == |w|
  {
    && OnPath(w, s, p)
    && (p != -1 ==> c in nxt[p])
    && forall v {:trigger IsSuffix(w[v], s)} ::
         0 <= v < |w| && IsSuffix(w[v], s) && |w[v]| > Depth(w, p) ==> c !in nxt[v]
  }

  ghost function Matched(w: seq<seq<Id>>, c: Id, p: int): seq<Id>
    requires p < |w|
  {
    if p < 0 then [] else w[p] + [c]
  }

  lemma {:induction false} WalkFindsLongestOld(s: seq<Id>, c: Id, w: seq<seq<Id>>, nxt: seq<Edges>, p: int)
    requires StatesOf(s, w) && EdgesOf(s, w, nxt) && Stopped(s, c, w, nxt, p)
    ensures LongestOld(s, c, Matched(w, c, p))
  {
    var z := Matched(w, c, p);
    if p == -1 {
      assert OccursAt(s, [], 0);
    } else {
      assert EdgeOf(s, w, w[p], c, nxt[p]);
      SuffixAppend(w[p], s, c);
    }
    forall y | Occurs(s, y) && IsSuffix(y, s + [c])
      ensures |y| <= |z|
    {
      if |y| > |z| {
        assert y[|y| - 1] == (s + [c])[|s|];
        var x := y[..|y| - 1];
        assert y == x + [c];
        SuffixAppend(x, s, c);
        var m := ExtendToState(s, x, c);
        StateHasEdge(s, w, nxt, m, c);
        assert false;
      }
    }
  }

  // ------------------------------------------------------------------ the new tables

  ghost function NewWords(s: seq<Id>, c: Id, w: seq<seq<Id>>, z: seq<Id>): seq<seq<Id>> {
    if Maximal(s, z) then w + [s + [c]] else w + [s + [c], z]
  }

  lemma {:induction false} StatesAppend(s: seq<Id>, c: Id, w: seq<seq<Id>>, z: seq<Id>)
    requires StatesOf(s, w) && LongestOld(s, c, z)
    ensures StatesOf(s + [c], NewWords(s, c, w, z))
  {
    var t, w' := s + [c], NewWords(s, c, w, z);
    forall v | 0 <= v < |w|
      ensures w[v] != t && (!Maximal(s, z) ==> w[v] != z)
    {
      MaximalOccurs(s, w[v]);
    }
    forall v | 0 <= v < |w'|
      ensures Maximal(t, w'[v])
    {
      MaximalAppend(s, c, z, w'[v]);
    }
    forall x | Maximal(t, x)
      ensures x in w'
    {
      MaximalAppend(s, c, z, x);
      if Maximal(s, x) {
        assert x in w;
      } else if x == t {
        assert w'[|w|] == t;
      } else {
        assert w'[|w| + 1] == z;
      }
    }
  }

  lemma {:induction false} OldWordIsNotLonger(s: seq<Id>, c: Id, z: seq<Id>, x: seq<Id>)
    requires LongestOld(s, c, z) && Maximal(s, x)
    ensures |x| <= |s|
    ensures IsSuffix(x, s + [c]) ==> |x| <= |z|
  {
    MaximalOccurs(s, x);
  }

  /** No state lies strictly between z and the state q that z belongs to. */
  lemma {:induction false} BelowClone(s: seq<Id>, w: seq<seq<Id>>, z: seq<Id>, q: nat, k: nat)
    requires StatesOf(s, w) && q < |w| && k < |w|
    requires Shortest(s, z, w[q]) && !Maximal(s, z)
    requires |w[k]| < |w[q]| && IsSuffix(w[k], w[q])
    ensures |w[k]| < |z| && IsSuffix(w[k], z)
  {
    assert Maximal(s, w[k]);
    if |z| <= |w[k]| {
      SuffixesNest(z, w[k], w[q]);
    } else {
      SuffixesNest(w[k], z, w[q]);
    }
  }

  lemma {:induction false} LinksAppendOld(s: seq<Id>, c: Id, w: seq<seq<Id>>, link: seq<int>, z: seq<Id>, q: int,
                                          v: nat)
    requires StatesOf(s, w) && LinksOf(w, link) && LongestOld(s, c, z)
    requires 0 < v < |w|
    requires !Maximal(s, z) ==> 0 <= q < |w| && Shortest(s, z, w[q]) && v != q
    ensures LinksTo(NewWords(s, c, w, z), v, link[v])
  {
    var w' := NewWords(s, c, w, z);
    assert LinksTo(w, v, link[v]);
    forall k | 0 <= k < |w'| && |w'[k]| < |w'[v]| && IsSuffix(w'[k], w'[v])
      ensures |w'[k]| <= |w'[link[v]]|
    {
      if k == |w| {
        OldWordIsNotLonger(s, c, z, w[v]);
      } else if k == |w| + 1 {
        ShortestIsSuffix(s, z, w[q], w[v]);
        SuffixesNest(w[q], w[v], w[v]);
      }
    }
  }

  lemma {:induction false} LinksAppendClone(s: seq<Id>, c: Id, w: seq<seq<Id>>, link: seq<int>, z: seq<Id>, q: nat)
    requires StatesOf(s, w) && LinksOf(w, link) && LongestOld(s, c, z)
    requires !Maximal(s, z) && q < |w| && Shortest(s, z, w[q])
    ensures 0 < q
    ensures LinksTo(NewWords(s, c, w, z), q, |w| + 1)
    ensures LinksTo(NewWords(s, c, w, z), |w| + 1, link[q])
  {
    var w' := NewWords(s, c, w, z);
    if |z| == |w[q]| {
      SuffixesNest(z, w[q], w[q]);
    }
    assert w'[q] == w[q] && w'[|w| + 1] == z;
    assert LinksTo(w, q, link[q]);
    BelowClone(s, w, z, q, link[q]);
    OldWordIsNotLonger(s, c, z, w[q]);
    forall k | 0 <= k < |w'| && |w'[k]| < |w[q]| && IsSuffix(w'[k], w[q])
      ensures |w'[k]| <= |z|
    {
      if k < |w| {
        BelowClone(s, w, z, q, k);
      }
    }
    forall k | 0 <= k < |w'| && |w'[k]| < |z| && IsSuffix(w'[k], z)
      ensures |w'[k]| <= |w[link[q]]|
    {
      if k < |w| {
        SuffixTransitive(w[k], z, w[q]);
      }
    }
  }

  lemma {:induction false} LinksAppendCurrent(s: seq<Id>, c: Id, w: seq<seq<Id>>, z: seq<Id>, u: nat)
    requires StatesOf(s, w) && LongestOld(s, c, z)
    requires u < |NewWords(s, c, w, z)| && NewWords(s, c, w, z)[u] == z
    ensures LinksTo(NewWords(s, c, w, z), |w|, u)
  {
    var t, w' := s + [c], NewWords(s, c, w, z);
    var i :| OccursAt(s, z, i);
    assert w'[|w|] == t;
    forall k | 0 <= k < |w'| && |w'[k]| < |t| && IsSuffix(w'[k], t)
      ensures |w'[k]| <= |z|
    {
      if k < |w| {
        OldWordIsNotLonger(s, c, z, w[k]);
      }
    }
  }

  lemma {:induction false} ShortestStays(s: seq<Id>, c: Id, z: seq<Id>, x: seq<Id>, y: seq<Id>)
    requires LongestOld(s, c, z) && Shortest(s, x, y)
    requires Maximal(s, z) || !IsSuffix(x, z) || |y| <= |z|
    ensures Shortest(s + [c], x, y)
  {
    MaximalStays(s, c, y);
    OldWordIsNotLonger(s, c, z, y);
    forall m | Maximal(s + [c], m) && IsSuffix(x, m)
      ensures |y| <= |m|
    {
      MaximalAppend(s, c, z, m);
    }
  }

  lemma {:induction false} ShortestNew(s: seq<Id>, c: Id, z: seq<Id>, x: seq<Id>)
    requires LongestOld(s, c, z) && !Occurs(s, x) && IsSuffix(x, s + [c])
    ensures Shortest(s + [c], x, s + [c])
  {
    var t := s + [c];
    MaximalAppend(s, c, z, t);
    forall m | Maximal(t, m) && IsSuffix(x, m)
      ensures |t| <= |m|
    {
      MaximalAppend(s, c, z, m);
      if Maximal(s, m) {
        MaximalOccurs(s, m);
        OccursSuffix(s, x, m);
      } else if m == z {
        OccursSuffix(s, x, z);
      }
    }
  }

  lemma {:induction false} ShortestClone(s: seq<Id>, c: Id, z: seq<Id>, x: seq<Id>, y: seq<Id>)
    requires LongestOld(s, c, z) && Shortest(s, x, y) && IsSuffix(x, z) && |z| <= |y|
    ensures Shortest(s + [c], x, z)
  {
    LongestOldIsMaximal(s, c, z);
    var i :| OccursAt(s, z, i);
    forall m | Maximal(s + [c], m) && IsSuffix(x, m)
      ensures |z| <= |m|
    {
      MaximalAppend(s, c, z, m);
    }
  }

  /** The length comparison of the code decides whether z has a state of its own. */
  lemma {:induction false} LengthTellsMaximal(s: seq<Id>, z: seq<Id>, y: seq<Id>)
    requires Shortest(s, z, y)
    ensures |z| == |y| <==> Maximal(s, z)
    ensures |z| == |y| ==> z == y
  {
    if |z| == |y| {
      SuffixesNest(z, y, y);
    } else if Maximal(s, z) {
      ShortestOfMaximal(s, z, y);
    }
  }

  /** Down the path the targets only get shorter, so those equal to q come first. */
  lemma {:induction false} TargetsShrink(s: seq<Id>, w: seq<seq<Id>>, nxt: seq<Edges>, c: Id, a: nat, b: nat)
    requires StatesOf(s, w) && EdgesOf(s, w, nxt)
    requires a < |w| && b < |w| && IsSuffix(w[b], w[a]) && c in nxt[a]
    ensures c in nxt[b] && nxt[a][c] < |w| && nxt[b][c] < |w|
    ensures IsSuffix(w[nxt[b][c]], w[nxt[a][c]])
  {
    assert EdgeOf(s, w, w[a], c, nxt[a]) && EdgeOf(s, w, w[b], c, nxt[b]);
    SuffixAppend(w[b], w[a], c);
    OccursSuffix(s, w[b] + [c], w[a] + [c]);
    SuffixTransitive(w[b] + [c], w[a] + [c], w[nxt[a][c]]);
    ShortestIsSuffix(s, w[b] + [c], w[nxt[b][c]], w[nxt[a][c]]);
  }

  /** The edges of state v once every state on the path above p leads to the new state on c. */
  ghost function Threaded(s: seq<Id>, c: Id, w: seq<seq<Id>>, nxt: seq<Edges>, p: int, v: nat): Edges
    requires |nxt| == |w| && v < |w| && p < |w|
  {
    if IsSuffix(w[v], s) && |w[v]| > Depth(w, p) then nxt[v][c := |w|] else nxt[v]
  }

  /** How the edges of old state v change: redirected to the new state on the path above p, and
      from q to its clone on the path from p down. */
  ghost function NewEdges(s: seq<Id>, c: Id, w: seq<seq<Id>>, nxt: seq<Edges>, p: int, cloned: bool, v: nat): Edges
    requires |nxt| == |w| && v < |w| && -1 <= p < |w| && (p != -1 ==> c in nxt[p])
  {
    if cloned && p != -1 && IsSuffix(w[v], w[p]) && c in nxt[v] && nxt[v][c] == nxt[p][c] then
      nxt[v][c := |w| + 1]
    else
      Threaded(s, c, w, nxt, p, v)
  }

  lemma {:induction false} EdgeAppendOld(s: seq<Id>, c: Id, w: seq<seq<Id>>, nxt: seq<Edges>, p: int, v: nat, d: Id)
    requires StatesOf(s, w) && EdgesOf(s, w, nxt) && Stopped(s, c, w, nxt, p)
    requires v < |w|
    ensures var z := Matched(w, c, p);
            EdgeOf(s + [c], NewWords(s, c, w, z), w[v], d, NewEdges(s, c, w, nxt, p, !Maximal(s, z), v))
  {
    var t, z := s + [c], Matched(w, c, p);
    var w' := NewWords(s, c, w, z);
    WalkFindsLongestOld(s, c, w, nxt, p);
    assert EdgeOf(s, w, w[v], d, nxt[v]);
    var x := w[v] + [d];
    OccursAppend(s, c, x);
    if IsSuffix(w[v], s) && d == c {
      SuffixAppend(w[v], s, c);
      if |w[v]| > Depth(w, p) {
        ShortestNew(s, c, z, x);
        assert w'[|w|] == t;
      } else {
        SuffixesNest(w[v], w[p], s);
        SuffixAppend(w[v], w[p], c);
        TargetsShrink(s, w, nxt, c, p, v);
        EdgeBelow(s, c, w, nxt, p, v);
      }
    } else {
      if IsSuffix(x, t) {
        SuffixSplit(w[v], s, d, c);
      }
      if d in nxt[v] {
        if IsSuffix(x, z) && p != -1 {
          SuffixSplit(w[v], w[p], d, c);
          SuffixTransitive(w[v], w[p], s);
        }
        ShortestStays(s, c, z, x, w[nxt[v][d]]);
      }
      if d == c && p != -1 && IsSuffix(w[v], w[p]) {
        SuffixTransitive(w[v], w[p], s);
      }
    }
  }

  lemma {:induction false} EdgeBelow(s: seq<Id>, c: Id, w: seq<seq<Id>>, nxt: seq<Edges>, p: nat, v: nat)
    requires StatesOf(s, w) && EdgesOf(s, w, nxt) && p < |w| && Stopped(s, c, w, nxt, p)
    requires v < |w| && IsSuffix(w[v], w[p]) && c in nxt[v]
    requires LongestOld(s, c, w[p] + [c]) && IsSuffix(w[v] + [c], w[p] + [c])
    ensures nxt[p][c] < |w| && nxt[v][c] < |w|
    ensures !Maximal(s, w[p] + [c]) && nxt[v][c] == nxt[p][c] ==> Shortest(s + [c], w[v] + [c], w[p] + [c])
    ensures Maximal(s, w[p] + [c]) || nxt[v][c] != nxt[p][c] ==> Shortest(s + [c], w[v] + [c], w[nxt[v][c]])
  {
    var z, x := w[p] + [c], w[v] + [c];
    var u, q := nxt[v][c], nxt[p][c];
    assert EdgeOf(s, w, w[v], c, nxt[v]) && EdgeOf(s, w, w[p], c, nxt[p]);
    if Maximal(s, z) {
      ShortestStays(s, c, z, x, w[u]);
    } else if u == q {
      ShortestClone(s, c, z, x, w[q]);
    } else {
      TargetsShrink(s, w, nxt, c, p, v);
      if |w[u]| == |w[q]| {
        SuffixesNest(w[u], w[q], w[q]);
      }
      BelowClone(s, w, z, q, u);
      ShortestStays(s, c, z, x, w[u]);
    }
  }

  lemma {:induction false} EdgeAppendClone(s: seq<Id>, c: Id, w: seq<seq<Id>>, nxt: seq<Edges>, p: nat, d: Id)
    requires StatesOf(s, w) && EdgesOf(s, w, nxt) && p < |w| && Stopped(s, c, w, nxt, p)
    requires !Maximal(s, w[p] + [c])
    ensures nxt[p][c] < |w|
    ensures var q, z := nxt[p][c], w[p] + [c];
            EdgeOf(s + [c], NewWords(s, c, w, z), z, d,
                   Threaded(s, c, w, nxt, p, q))
  {
    var t, z := s + [c], w[p] + [c];
    var w' := NewWords(s, c, w, z);
    WalkFindsLongestOld(s, c, w, nxt, p);
    assert EdgeOf(s, w, w[p], c, nxt[p]);
    var q := nxt[p][c];
    assert EdgeOf(s, w, w[q], d, nxt[q]);
    var x := z + [d];
    OccursAppend(s, c, x);
    ClassContinues(s, z, w[q], d);
    SuffixOfClass(s, z, w[q]);
    if d == c && IsSuffix(z, s) {
      SuffixAppend(z, s, c);
      ShortestNew(s, c, z, x);
      assert w'[|w|] == t;
    } else {
      if IsSuffix(x, t) {
        SuffixSplit(z, s, d, c);
      }
      if d in nxt[q] {
        ClassContinuesTo(s, z, w[q], d, w[nxt[q][d]]);
        ShortestStays(s, c, z, x, w[nxt[q][d]]);
      }
    }
  }

  /** Where the edge on c of the stop leads; -1 if the walk ran past the root. */
  ghost function Target(g: seq<Edges>, c: Id, p: int): int
    requires p < |g|
  {
    if p >= 0 && c in g[p] then g[p][c] else -1
  }

  /** The edges after the walk stopped at p and q was cloned or not, entry by entry. */
  ghost predicate GrownEdges(s: seq<Id>, c: Id, w: seq<seq<Id>>, g: seq<Edges>, p: int, cloned: bool, nxt: seq<Edges>)
    requires |g| == |w| && -1 <= p < |w| && (p != -1 ==> c in g[p])
  {
    var n, q := |w|, Target(g, c, p);
    && |nxt| == n + (if cloned then 2 else 1)
    && (forall v :: 0 <= v < n ==> nxt[v] == NewEdges(s, c, w, g, p, cloned, v))
    && nxt[n] == map[]
    && (cloned ==> 0 <= q < n && nxt[n + 1] == Threaded(s, c, w, g, p, q))
  }

  /** The links, with q the state the walk's last edge leads to. */
  ghost predicate GrownLinks(links: seq<int>, q: int, cloned: bool, link: seq<int>) {
    var n := |links|;
    && |link| == n + (if cloned then 2 else 1)
    && if !cloned then
         && (forall v :: 0 <= v < n ==> link[v] == links[v])
         && link[n] == if q == -1 then 0 else q
       else
         && 0 <= q < n
         && (forall v :: 0 <= v < n && v != q ==> link[v] == links[v])
         && link[q] == n + 1 && link[n] == n + 1 && link[n + 1] == links[q]
  }

  /** One column of the figures: the new state's entry, then the clone's, copied from q. */
  ghost predicate GrownColumn(before: seq<int>, new_: int, q: int, cloned: bool, after: seq<int>) {
    && (cloned ==> 0 <= q < |before|)
    && after == before + [new_] + if cloned then [before[q]] else []
  }

  lemma {:induction false} RedirectedIsNew(s: seq<Id>, c: Id, w: seq<seq<Id>>, g: seq<Edges>, p: nat, q: nat,
                                           before: seq<Edges>, after: seq<Edges>)
    requires p < |w| == |g| && |before| == |after| == |w| + 2 && c in g[p] && q == g[p][c] < |w|
    requires forall u :: 0 <= u < |w| ==> before[u] == Threaded(s, c, w, g, p, u)
    requires before[|w|] == map[] && before[|w| + 1] == before[q]
    requires forall u :: 0 <= u < |after| ==>
      after[u] == if u < |w| && IsSuffix(w[u], w[p]) && c in g[u] && g[u][c] == q
                  then g[u][c := |w| + 1] else before[u]
    ensures GrownEdges(s, c, w, g, p, true, after)
  {}

  /** What the stop tells about z and q. */
  lemma {:induction false} StopTarget(s: seq<Id>, c: Id, w: seq<seq<Id>>, g: seq<Edges>, p: int)
    requires StatesOf(s, w) && EdgesOf(s, w, g) && Stopped(s, c, w, g, p)
    ensures TargetOf(s, w, Matched(w, c, p), Target(g, c, p))
    ensures p != -1 ==> Target(g, c, p) != -1
  {
    assert OccursAt(s, [], 0);
    if p != -1 {
      assert EdgeOf(s, w, w[p], c, g[p]);
    }
  }

  lemma {:induction false} StopDecides(s: seq<Id>, c: Id, w: seq<seq<Id>>, g: seq<Edges>, p: int)
    requires StatesOf(s, w) && EdgesOf(s, w, g) && Stopped(s, c, w, g, p)
    ensures p == -1 ==> Maximal(s, Matched(w, c, p))
    ensures p != -1 ==> var q := Target(g, c, p);
      0 <= q < |w| && (|w[p]| + 1 == |w[q]| <==> Maximal(s, Matched(w, c, p)))
  {
    StopTarget(s, c, w, g, p);
    if p != -1 {
      LengthTellsMaximal(s, w[p] + [c], w[Target(g, c, p)]);
    }
  }

  /** q is the state of z's class, or z is empty and there was no edge at all. */
  ghost predicate TargetOf(s: seq<Id>, w: seq<seq<Id>>, z: seq<Id>, q: int) {
    -1 <= q < |w| && if q == -1 then z == [] && Maximal(s, z) else Shortest(s, z, w[q]) && z != []
  }

  lemma {:induction false} NoEdgeFromWhole(t: seq<Id>, d: Id)
    ensures !Occurs(t, t + [d])
  {}

  lemma {:induction false} EdgesAppend(s: seq<Id>, c: Id, w: seq<seq<Id>>, g: seq<Edges>, p: int, nxt: seq<Edges>)
    requires StatesOf(s, w) && EdgesOf(s, w, g) && Stopped(s, c, w, g, p)
    requires GrownEdges(s, c, w, g, p, !Maximal(s, Matched(w, c, p)), nxt)
    ensures EdgesOf(s + [c], NewWords(s, c, w, Matched(w, c, p)), nxt)
  {
    var z, t := Matched(w, c, p), s + [c];
    var w' := NewWords(s, c, w, z);
    forall v, d | 0 <= v < |w|
      ensures EdgeOf(t, w', w[v], d, nxt[v])
    {
      EdgeAppendOld(s, c, w, g, p, v, d);
    }
    if !Maximal(s, z) {
      StopTarget(s, c, w, g, p);
      var e := nxt[|w| + 1];
      forall d
        ensures EdgeOf(t, w', z, d, e)
      {
        EdgeAppendClone(s, c, w, g, p, d);
      }
    }
    EdgesCases(t, w, w', nxt, z);
  }

  lemma {:induction false} EdgesCases(t: seq<Id>, w: seq<seq<Id>>, w': seq<seq<Id>>, nxt: seq<Edges>, z: seq<Id>)
    requires |nxt| == |w'| && (w' == w + [t] || w' == w + [t, z])
    requires forall v, d {:trigger EdgeOf(t, w', w[v], d, nxt[v])} :: 0 <= v < |w| ==> EdgeOf(t, w', w[v], d, nxt[v])
    requires nxt[|w|] == map[]
    requires w' == w + [t, z] ==> var e := nxt[|w| + 1]; forall d :: EdgeOf(t, w', z, d, e)
    ensures EdgesOf(t, w', nxt)
  {
    forall v, d | 0 <= v < |w'|
      ensures EdgeOf(t, w', w'[v], d, nxt[v])
    {
      if v < |w| {
        assert EdgeOf(t, w', w[v], d, nxt[v]);
      } else if v == |w| {
        NoEdgeFromWhole(t, d);
      } else {
        assert EdgeOf(t, w', z, d, nxt[|w| + 1]);
      }
    }
  }

  lemma {:induction false} LinksAppend(s: seq<Id>, c: Id, w: seq<seq<Id>>, links: seq<int>, z: seq<Id>, q: int,
                                       link: seq<int>)
    requires StatesOf(s, w) && LinksOf(w, links) && LongestOld(s, c, z) && TargetOf(s, w, z, q)
    requires GrownLinks(links, q, !Maximal(s, z), link)
    ensures LinksOf(NewWords(s, c, w, z), link)
    ensures 0 <= link[|w|] < |link| && NewWords(s, c, w, z)[link[|w|]] == z
  {
    var n, w' := |w|, NewWords(s, c, w, z);
    if Maximal(s, z) && q != -1 {
      ShortestOfMaximal(s, z, w[q]);
    }
    LinksAppendCurrent(s, c, w, z, link[n]);
    if !Maximal(s, z) {
      LinksAppendClone(s, c, w, links, z, q);
    }
    forall v | 0 < v < |w'|
      ensures LinksTo(w', v, link[v])
    {
      if v < n && (Maximal(s, z) || v != q) {
        LinksAppendOld(s, c, w, links, z, q, v);
      }
    }
  }

  /** Before the commit every figure but the newest still describes s. */
  lemma {:induction false} FiguresAppend(s: seq<Id>, c: Id, w: seq<seq<Id>>, ends: seq<int>, counts: seq<int>,
                                         z: seq<Id>, q: int, lastEnd: seq<int>, cnt: seq<int>)
    requires |ends| == |counts| == |w| > 0 && w[0] == [] && TargetOf(s, w, z, q)
    requires forall v :: 0 < v < |w| ==> Counts(s, w[v], ends[v], counts[v])
    requires GrownColumn(ends, |s|, q, !Maximal(s, z), lastEnd) && GrownColumn(counts, 1, q, !Maximal(s, z), cnt)
    ensures var w' := NewWords(s, c, w, z);
            forall v :: 0 < v < |w'| && v != |w| ==> Counts(s, w'[v], lastEnd[v], cnt[v])
  {
    if !Maximal(s, z) {
      EndsOfClass(s, z, w[q]);
      assert Counts(s, w[q], ends[q], counts[q]);
    }
  }

  lemma {:induction false} LongestOldIsMatch(s: seq<Id>, c: Id, z: seq<Id>, m: Match)
    requires LongestOld(s, c, z) && m.length == |z|
    requires if z == [] then m == Match(0, -1, 0) else Counts(s, z, m.lastEnd, m.count)
    ensures IsLongestMatch(s + [c], m)
  {
    var t := s + [c];
    assert t[..|s|] == s && t[|t| - |z|..] == z;
    var i :| OccursAt(s, z, i);
  }

  /** Read through the strings of the states, the updated tables are those of the longer text. */
  lemma {:induction false} ExtendGraph(s: seq<Id>, c: Id, w: seq<seq<Id>>, g: seq<Edges>, p: int, links: seq<int>,
                                       q: int, cloned: bool, nxt: seq<Edges>, link: seq<int>, lengths: seq<nat>,
                                       length: seq<nat>)
    requires GraphOf(s, w, g, links)
    requires Stopped(s, c, w, g, p) && q == Target(g, c, p) && q < |w| && (p != -1 ==> 0 <= q)
    requires cloned <==> p != -1 && |w[p]| + 1 != |w[q]|
    requires |lengths| == |w| && forall v :: 0 <= v < |w| ==> lengths[v] == |w[v]|
    requires length == lengths + [|s| + 1] + if cloned then [|w[p]| + 1] else []
    requires GrownEdges(s, c, w, g, p, cloned, nxt) && GrownLinks(links, q, cloned, link)
    ensures LongestOld(s, c, Matched(w, c, p)) && TargetOf(s, w, Matched(w, c, p), q)
    ensures cloned <==> !Maximal(s, Matched(w, c, p))
    ensures var z := Matched(w, c, p);
            && GraphOf(s + [c], NewWords(s, c, w, z), nxt, link)
            && 0 <= link[|w|] < |link| && NewWords(s, c, w, z)[link[|w|]] == z
            && (z == [] ==> link[|w|] == 0)
            && |length| == |NewWords(s, c, w, z)|
            && forall v :: 0 <= v < |length| ==> length[v] == |NewWords(s, c, w, z)[v]|
  {
    var z := Matched(w, c, p);
    WalkFindsLongestOld(s, c, w, g, p);
    StopTarget(s, c, w, g, p);
    StopDecides(s, c, w, g, p);
    StatesAppend(s, c, w, z);
    EdgesAppend(s, c, w, g, p, nxt);
    LinksAppend(s, c, w, links, z, q, link);
  }

  lemma {:induction false} GrownFigures(s: seq<Id>, c: Id, w: seq<seq<Id>>, z: seq<Id>, ends: seq<int>,
                                        counts: seq<int>, q: int, cloned: bool, lastEnd: seq<int>, cnt: seq<int>)
    requires |ends| == |counts| == |w| > 0 && ends[0] == -1 && counts[0] == 0 && (cloned <==> !Maximal(s, z))
    requires GrownColumn(ends, |s|, q, cloned, lastEnd) && GrownColumn(counts, 1, q, cloned, cnt)
    ensures |lastEnd| == |cnt| == |NewWords(s, c, w, z)| && lastEnd[0] == -1 && cnt[0] == 0
    ensures lastEnd[|w|] == |s| && cnt[|w|] == 1 && NewWords(s, c, w, z)[|w|] == s + [c]
  {}

  lemma {:induction false} ExtendFigures(s: seq<Id>, c: Id, w: seq<seq<Id>>, z: seq<Id>, ends: seq<int>,
                                         counts: seq<int>, q: int, cloned: bool, v: nat, lastEnd: seq<int>,
                                         cnt: seq<int>)
    requires |ends| == |counts| == |w| > 0 && w[0] == [] && ends[0] == -1 && counts[0] == 0
    requires forall v :: 0 < v < |w| ==> Counts(s, w[v], ends[v], counts[v])
    requires LongestOld(s, c, z) && TargetOf(s, w, z, q) && (cloned <==> !Maximal(s, z))
    requires GrownColumn(ends, |s|, q, cloned, lastEnd) && GrownColumn(counts, 1, q, cloned, cnt)
    requires v < |NewWords(s, c, w, z)| && NewWords(s, c, w, z)[v] == z && (z == [] ==> v == 0)
    ensures var w' := NewWords(s, c, w, z);
            forall v :: 0 < v < |w'| && v != |w| ==> Counts(s, w'[v], lastEnd[v], cnt[v])
    ensures v != |w| && IsLongestMatch(s + [c], Match(|z|, lastEnd[v], cnt[v]))
  {
    FiguresAppend(s, c, w, ends, counts, z, q, lastEnd, cnt);
    var i :| OccursAt(s, z, i);
    assert |z| < |s + [c]|;
    LongestOldIsMatch(s, c, z, Match(|z|, lastEnd[v], cnt[v]));
  }

  lemma {:induction false} SuffixOfClass(s: seq<Id>, x: seq<Id>, y: seq<Id>)
    requires Shortest(s, x, y)
    ensures IsSuffix(x, s) <==> IsSuffix(y, s)
  {
    if IsSuffix(x, s) {
      ClassExtends(s, x, y, |s| - |x|);
    } else if IsSuffix(y, s) {
      SuffixTransitive(x, y, s);
    }
  }

  // ------------------------------------------------------------------ occurrence counts

  /** x ends just before position e of s. */
  predicate EndsAt(s: seq<Id>, x: seq<Id>, e: int) {
    OccursAt(s, x, e - |x|)
  }

  /** The end positions below n of the occurrences of x in s, ascending. */
  function EndsBelow(s: seq<Id>, x: seq<Id>, n: nat): seq<int> {
    if n == 0 then []
    else EndsBelow(s, x, n - 1) + if EndsAt(s, x, n) then [n - 1] else []
  }

  function Ends(s: seq<Id>, x: seq<Id>): seq<int> {
    EndsBelow(s, x, |s|)
  }

  /** e is the most recent end of x in s and n the number of its occurrences. */
  ghost predicate Counts(s: seq<Id>, x: seq<Id>, e: int, n: int) {
    n == |Ends(s, x)| > 0 && e == Ends(s, x)[n - 1]
  }

  lemma {:induction false} EndsMember(s: seq<Id>, x: seq<Id>, n: nat, e: int)
    ensures e in EndsBelow(s, x, n) <==> 0 <= e < n && OccursAt(s, x, e + 1 - |x|)
  {
    if n > 0 {
      EndsMember(s, x, n - 1, e);
    }
  }

  lemma {:induction false} EndsOccur(s: seq<Id>, x: seq<Id>)
    requires x != []
    ensures Ends(s, x) != [] <==> Occurs(s, x)
  {
    if Ends(s, x) != [] {
      EndsMember(s, x, |s|, Ends(s, x)[0]);
    } else if Occurs(s, x) {
      var i :| OccursAt(s, x, i);
      EndsMember(s, x, |s|, i + |x| - 1);
    }
  }

  lemma {:induction false} EndsBelowAppend(s: seq<Id>, c: Id, x: seq<Id>, n: nat)
    requires x != [] && n <= |s|
    ensures EndsBelow(s + [c], x, n) == EndsBelow(s, x, n)
  {
    if n > 0 {
      EndsBelowAppend(s, c, x, n - 1);
      OccursAtAppend(s, c, x, n - |x|);
    }
  }

  lemma {:induction false} EndsAppend(s: seq<Id>, c: Id, x: seq<Id>)
    requires x != []
    ensures Ends(s + [c], x) == Ends(s, x) + if IsSuffix(x, s + [c]) then [|s|] else []
  {
    EndsBelowAppend(s, c, x, |s|);
  }

  lemma {:induction false} CountsAppend(s: seq<Id>, c: Id, x: seq<Id>, e: int, n: int)
    requires x != [] && Counts(s, x, e, n)
    ensures if IsSuffix(x, s + [c]) then Counts(s + [c], x, |s|, n + 1) else Counts(s + [c], x, e, n)
  {
    EndsAppend(s, c, x);
  }

  lemma {:induction false} EndsSame(s: seq<Id>, x: seq<Id>, y: seq<Id>, n: nat)
    requires forall e :: EndsAt(s, x, e) <==> EndsAt(s, y, e)
    ensures EndsBelow(s, x, n) == EndsBelow(s, y, n)
  {
    if n > 0 {
      EndsSame(s, x, y, n - 1);
    }
  }

  lemma {:induction false} EndsOfClass(s: seq<Id>, x: seq<Id>, y: seq<Id>)
    requires Shortest(s, x, y)
    ensures Ends(s, x) == Ends(s, y)
  {
    forall e
      ensures EndsAt(s, x, e) <==> EndsAt(s, y, e)
    {
      if EndsAt(s, x, e) {
        ClassExtends(s, x, y, e - |x|);
      } else if EndsAt(s, y, e) {
        OccursInside(s, x, y, e - |y|);
      }
    }
    EndsSame(s, x, y, |s|);
  }

  lemma {:induction false} EndsNone(s: seq<Id>, x: seq<Id>, n: nat)
    requires n < |x|
    ensures EndsBelow(s, x, n) == []
  {
    if n > 0 {
      EndsNone(s, x, n - 1);
    }
  }

  lemma {:induction false} EndsOfWhole(t: seq<Id>)
    requires t != []
    ensures Ends(t, t) == [|t| - 1]
  {
    EndsNone(t, t, |t| - 1);
  }

  // ------------------------------------------------------------------ the brute-force reference

  datatype Match = Match(length: int, lastEnd: int, count: int)

  /** m describes the longest suffix of t that also ends before t's last id. */
  ghost predicate IsLongestMatch(t: seq<Id>, m: Match) {
    && 0 <= m.length < |t|
    && var s, x := t[..|t| - 1], t[|t| - m.length..];
       && LongestOld(s, t[|t| - 1], x)
       && if m.length == 0 then m == Match(0, -1, 0) else Counts(s, x, m.lastEnd, m.count)
  }

  lemma {:induction false} LongestMatchIsUnique(t: seq<Id>, a: Match, b: Match)
    requires IsLongestMatch(t, a) && IsLongestMatch(t, b)
    ensures a == b
  {
    var x, y := t[|t| - a.length..], t[|t| - b.length..];
    assert |x| <= |y| && |y| <= |x|;
  }

  /** Lengthen the suffix by one until it has no earlier end. */
  method LongestSuffixMatch(t: seq<Id>) returns (best: Match)
    requires t != []
    ensures IsLongestMatch(t, best)
  {
    var T := |t|;
    best := Match(0, -1, 0);
    var L := 1;
    EmptyMatch(t);
    while L < T
      invariant 1 <= L <= T
      invariant best.length == L - 1
      invariant EarlierMatch(t, best)
    {
      var ends := Ends(t[..T - 1], t[T - L..]);
      EndsOccur(t[..T - 1], t[T - L..]);
      if ends == [] {
        NothingLonger(t, L);
        return;
      }
      best := Match(L, ends[|ends| - 1], |ends|);
      L := L + 1;
    }
    NothingLonger(t, T);
  }

  /** m describes a suffix of t that also ends before t's last id, not yet the longest. */
  ghost predicate EarlierMatch(t: seq<Id>, m: Match) {
    && 0 <= m.length < |t|
    && var s, x := t[..|t| - 1], t[|t| - m.length..];
       && Occurs(s, x)
       && if m.length == 0 then m == Match(0, -1, 0) else Counts(s, x, m.lastEnd, m.count)
  }

  lemma {:induction false} EmptyMatch(t: seq<Id>)
    requires t != []
    ensures EarlierMatch(t, Match(0, -1, 0))
  {
    assert t[|t|..] == [];
    assert OccursAt(t[..|t| - 1], [], 0);
  }

  /** If the suffix of length L never ended before, the one of length L - 1 is the longest. */
  lemma {:induction false} NothingLonger(t: seq<Id>, L: nat)
    requires 0 < L <= |t|
    requires L < |t| ==> !Occurs(t[..|t| - 1], t[|t| - L..])
    requires Occurs(t[..|t| - 1], t[|t| - L + 1..])
    ensures LongestOld(t[..|t| - 1], t[|t| - 1], t[|t| - L + 1..])
  {
    var s, suf := t[..|t| - 1], t[|t| - L..];
    assert t == s + [t[|t| - 1]];
    forall y | Occurs(s, y) && IsSuffix(y, t)
      ensures |y| <= L - 1
    {
      if |y| >= L {
        SuffixesNest(suf, y, t);
        OccursSuffix(s, suf, y);
      }
    }
  }

  // ------------------------------------------------------------------ the automaton object

  class SuffixAutomaton {
    var nxt: seq<Edges>
    var link: seq<int>
    var length: seq<nat>
    var lastEnd: seq<int>
    var cnt: seq<int>
    var last: nat
    ghost var text: seq<Id>
    ghost var words: seq<seq<Id>>

    ghost predicate Valid()
      reads this
    {
      && GraphOf(text, words, nxt, link)
      && |length| == |lastEnd| == |cnt| == |words|
      && (forall v :: 0 <= v < |words| ==> length[v] == |words[v]|)
      && lastEnd[0] == -1 && cnt[0] == 0
      && last < |words| && words[last] == text
    }

    /** Every state's figures describe all of text. */
    ghost predicate Committed()
      requires Valid()
      reads this
    {
      forall v :: 0 < v < |words| ==> Counts(text, words[v], lastEnd[v], cnt[v])
    }

    /** The figures of every state but the newest still describe the text before the last id. */
    ghost predicate Extended()
      requires Valid()
      reads this
    {
      && text != [] && last > 0
      && lastEnd[last] == |text| - 1 && cnt[last] == 1
      && forall v :: 0 < v < |words| && v != last ==> Counts(text[..|text| - 1], words[v], lastEnd[v], cnt[v])
    }

    constructor ()
      ensures Valid() && Committed() && text == []
    {
      nxt, link, length, lastEnd, cnt, last := [map[]], [-1], [0], [-1], [0], 0;
      text, words := [], [[]];
      new;
      assert forall x :: Maximal([], x) ==> x == [] by {
        forall x | Maximal([], x) ensures x == [] {
          MaximalOccurs([], x);
        }
      }
      assert OccursAt([], [], 0);
    }

    /** Append id c at position pos; v is the state of the longest suffix that ended before. */
    method Extend(c: Id, pos: int) returns (v: nat)
      requires Valid() && Committed() && pos == |text|
      modifies this
      ensures Valid() && Extended() && text == old(text) + [c]
      ensures v < |words| && v == link[last] && v != last
      ensures IsLongestMatch(old(text) + [c], Match(length[v], lastEnd[v], cnt[v]))
    {
      ghost var z, q, cloned := ExtendStates(c, pos);
      v := link[last];
      ghost var w' := NewWords(text, c, words, z);
      assert length[v] == |w'[v]| == |z|;
      ExtendFigures(text, c, words, z, old(lastEnd), old(cnt), q, cloned, v, lastEnd, cnt);
      GrownFigures(text, c, words, z, old(lastEnd), old(cnt), q, cloned, lastEnd, cnt);
      words := w';
      text := text + [c];
      assert text[..|text| - 1] == old(text);
    }

    /** The tables after extend are those of the longer text, whose longest old suffix is z. */
    method ExtendStates(c: Id, pos: int) returns (ghost z: seq<Id>, ghost q: int, ghost cloned: bool)
      requires Valid() && pos == |text|
      modifies this`nxt, this`link, this`length, this`lastEnd, this`cnt, this`last
      ensures LongestOld(text, c, z) && TargetOf(text, words, z, q)
      ensures last == |words|
      ensures var w' := NewWords(text, c, words, z);
              && GraphOf(text + [c], w', nxt, link)
              && |length| == |w'| && (forall v :: 0 <= v < |length| ==> length[v] == |w'[v]|)
              && 0 <= link[last] < |w'| && w'[link[last]] == z && (z == [] ==> link[last] == 0)
      ensures cloned <==> !Maximal(text, z)
      ensures GrownColumn(old(lastEnd), pos, q, cloned, lastEnd)
      ensures GrownColumn(old(cnt), 1, q, cloned, cnt)
    {
      ghost var p;
      p, q, cloned := ExtendTables(c, pos);
      z := Matched(words, c, p);
      ExtendGraph(text, c, words, old(nxt), p, old(link), q, cloned, nxt, link, old(length), length);
    }

    /** The table updates of extend. The first walk stopped at p, whose edge on c leads to q. */
    method ExtendTables(c: Id, pos: int) returns (ghost p: int, ghost q: int, ghost cloned: bool)
      requires Valid() && pos == |text|
      modifies this`nxt, this`link, this`length, this`lastEnd, this`cnt, this`last
      ensures Stopped(text, c, words, old(nxt), p) && q == Target(old(nxt), c, p)
      ensures q < |words| && (p != -1 ==> 0 <= q)
      ensures cloned <==> p != -1 && |words[p]| + 1 != |words[q]|
      ensures GrownEdges(text, c, words, old(nxt), p, cloned, nxt)
      ensures GrownLinks(old(link), q, cloned, link)
      ensures GrownColumn(old(lastEnd), pos, q, cloned, lastEnd)
      ensures GrownColumn(old(cnt), 1, q, cloned, cnt)
      ensures length == old(length) + [|text| + 1] + if cloned then [|words[p]| + 1] else []
      ensures last == |words|
    {
      ghost var g, links := nxt, link;
      var cur := |length|;
      AddState(length[last] + 1, 0, map[], pos, 1);
      assert link[..cur] == links;
      var stop := ThreadEdges(c, cur, g);
      p, q := stop, Target(g, c, stop);
      assert stop != -1 ==> EdgeOf(text, words, words[stop], c, g[stop]);
      assert stop != -1 ==> length[stop] == |words[stop]|;
      cloned := PlaceState(stop, c, cur, g);
      last := cur;
    }

    /** The part of extend after the first walk: link the new state to the state of the matched
        string, splitting that string off from q where it has none. */
    method PlaceState(stop: int, c: Id, cur: nat, ghost g: seq<Edges>) returns (ghost cloned: bool)
      requires cur == |words| == |g| && |nxt| == |link| == |length| == |lastEnd| == |cnt| == cur + 1
      requires nxt[cur] == map[] && link[cur] == 0
      requires StatesOf(text, words) && LinksOf(words, link[..cur]) && EdgesOf(text, words, g)
      requires Stopped(text, c, words, g, stop)
      requires forall u :: 0 <= u < cur ==> nxt[u] == Threaded(text, c, words, g, stop, u)
      requires stop != -1 ==> 0 <= Target(g, c, stop) < cur
      modifies this`nxt, this`link, this`length, this`lastEnd, this`cnt
      ensures cloned <==> stop != -1 && old(length[stop]) + 1 != old(length[Target(g, c, stop)])
      ensures GrownEdges(text, c, words, g, stop, cloned, nxt)
      ensures GrownLinks(old(link[..cur]), Target(g, c, stop), cloned, link)
      ensures lastEnd == old(lastEnd) + if cloned then [old(lastEnd)[Target(g, c, stop)]] else []
      ensures cnt == old(cnt) + if cloned then [old(cnt)[Target(g, c, stop)]] else []
      ensures length == old(length) + if cloned then [old(length)[stop] + 1] else []
    {
      cloned := false;
      if stop != -1 {
        var q := nxt[stop][c];
        if length[stop] + 1 == length[q] {
          link := link[cur := q];
        } else {
          cloned := true;
          CloneState(stop, c, q, cur, g);
        }
      }
    }

    /** Split q: a new state for the matched string, with q's edges, link and figures, takes over
        the edges to q from the link path of stop. */
    method CloneState(stop: nat, c: Id, q: nat, cur: nat, ghost g: seq<Edges>)
      requires cur == |words| == |g| && |nxt| == |link| == |length| == |lastEnd| == |cnt| == cur + 1
      requires nxt[cur] == map[]
      requires StatesOf(text, words) && LinksOf(words, link[..cur]) && EdgesOf(text, words, g)
      requires Stopped(text, c, words, g, stop) && q == Target(g, c, stop) && q < cur
      requires forall u :: 0 <= u < cur ==> nxt[u] == Threaded(text, c, words, g, stop, u)
      modifies this`nxt, this`link, this`length, this`lastEnd, this`cnt
      ensures GrownEdges(text, c, words, g, stop, true, nxt)
      ensures GrownLinks(old(link[..cur]), q, true, link)
      ensures lastEnd == old(lastEnd) + [old(lastEnd[q])] && cnt == old(cnt) + [old(cnt[q])]
      ensures length == old(length) + [old(length[stop]) + 1]
    {
      ghost var links := link[..cur];
      var clone := |length|;
      AddState(length[stop] + 1, link[q], nxt[q], lastEnd[q], cnt[q]);
      assert link[..cur] == links;
      ghost var before := nxt;
      RedirectEdges(stop, c, q, clone, g);
      RedirectedIsNew(text, c, words, g, stop, q, before, nxt);
      link := link[q := clone];
      link := link[cur := clone];
    }

    method AddState(len: nat, parent: int, edges: Edges, end: int, occurrences: int)
      modifies this`length, this`link, this`nxt, this`lastEnd, this`cnt
      ensures length == old(length) + [len] && link == old(link) + [parent] && nxt == old(nxt) + [edges]
      ensures lastEnd == old(lastEnd) + [end] && cnt == old(cnt) + [occurrences]
    {
      length, link, nxt := length + [len], link + [parent], nxt + [edges];
      lastEnd, cnt := lastEnd + [end], cnt + [occurrences];
    }

    /** Count the newest id's occurrences. */
    method Commit(pos: int)
      requires Valid() && Extended() && pos == |text| - 1
      modifies this`lastEnd, this`cnt
      ensures Valid() && Committed()
    {
      CountPath(pos);
      ghost var s := text[..pos];
      assert text == s + [text[pos]];
      forall u | 0 < u < |words|
        ensures Counts(text, words[u], lastEnd[u], cnt[u])
      {
        if u == last {
          EndsOfWhole(text);
        } else {
          CountsAppend(s, text[pos], words[u], old(lastEnd[u]), old(cnt[u]));
        }
      }
    }

    /** The walk of commit: every state strictly below the newest on its link path, but the root. */
    method CountPath(pos: int)
      requires Valid() && 0 < last
      modifies this`lastEnd, this`cnt
      ensures Valid()
      ensures forall u :: 0 < u < |words| ==>
        if u != last && IsSuffix(words[u], text) then lastEnd[u] == pos && cnt[u] == old(cnt)[u] + 1
        else lastEnd[u] == old(lastEnd)[u] && cnt[u] == old(cnt)[u]
    {
      assert IsSuffix(text, text);
      assert LinksTo(words, last, link[last]);
      forall u | 0 <= u < |words| && IsSuffix(words[u], text)
        ensures |words[u]| > Depth(words, link[last]) ==> u == last
      {
        PathStep(text, words, link, text, last, u);
        SuffixesNest(words[u], text, text);
      }
      PathStep(text, words, link, text, last, last);
      assert forall u :: 0 < u < |words| ==> 0 < |words[u]|;
      var v := link[last];
      while v > 0
        invariant OnPath(words, text, v) && v != -1
        invariant |lastEnd| == |cnt| == |words| && lastEnd[0] == -1 && cnt[0] == 0
        invariant forall u :: 0 < u < |words| ==>
          if IsSuffix(words[u], text) && Depth(words, v) < |words[u]| && u != last
          then lastEnd[u] == pos && cnt[u] == old(cnt)[u] + 1
          else lastEnd[u] == old(lastEnd)[u] && cnt[u] == old(cnt)[u]
        invariant Depth(words, v) < |text|
        decreases Depth(words, v)
      {
        DownPath(text, words, link, text, v);
        lastEnd := lastEnd[v := pos];
        cnt := cnt[v := cnt[v] + 1];
        v := link[v];
      }
    }

    /** First walk: give every state on the link path an edge to cur, up to the first state that
        already had one on c. */
    method ThreadEdges(c: Id, cur: nat, ghost g: seq<Edges>) returns (p: int)
      requires cur == |words| == |g| && nxt == g + [map[]] && |link| > cur
      requires GraphOf(text, words, g, link[..cur])
      requires last < cur && words[last] == text
      modifies this`nxt
      ensures Stopped(text, c, words, g, p)
      ensures |nxt| == cur + 1 && nxt[cur] == map[]
      ensures forall u :: 0 <= u < cur ==> nxt[u] == Threaded(text, c, words, g, p, u)
    {
      p := last;
      while p != -1 && c !in nxt[p]
        invariant OnPath(words, text, p)
        invariant |nxt| == cur + 1 && nxt[cur] == map[]
        invariant forall u :: 0 <= u < cur ==> nxt[u] == Threaded(text, c, words, g, p, u)
        invariant forall u :: 0 <= u < cur && IsSuffix(words[u], text) && |words[u]| > Depth(words, p) ==> c !in g[u]
        decreases Depth(words, p)
      {
        forall u | 0 <= u < cur && IsSuffix(words[u], text)
          ensures |words[u]| > Depth(words, link[p]) <==> |words[u]| > Depth(words, p) || u == p
        {
          PathStep(text, words, link[..cur], text, p, u);
        }
        PathStep(text, words, link[..cur], text, p, p);
        var e: Edges := nxt[p][c := cur];
        nxt := nxt[p := e];
        p := link[p];
      }
    }

    /** Second walk: from p down the link path, edges on c to q go to clone instead. */
    method RedirectEdges(start: nat, c: Id, q: nat, clone: nat, ghost g: seq<Edges>)
      requires |words| <= |nxt| && |words| <= |link|
      requires StatesOf(text, words) && LinksOf(words, link[..|words|]) && EdgesOf(text, words, g)
      requires start < |words| && c in g[start] && g[start][c] == q
      requires forall u :: 0 <= u < |words| && IsSuffix(words[u], words[start]) ==> nxt[u] == g[u]
      modifies this`nxt
      ensures |nxt| == old(|nxt|)
      ensures forall u :: 0 <= u < |nxt| ==>
        nxt[u] == if u < |words| && IsSuffix(words[u], words[start]) && c in g[u] && g[u][c] == q
                  then g[u][c := clone] else old(nxt)[u]
    {
      ghost var path := words[start];
      var p: int := start;
      while p != -1 && c in nxt[p] && nxt[p][c] == q
        invariant OnPath(words, path, p)
        invariant |nxt| == old(|nxt|)
        invariant forall u :: 0 <= u < |nxt| ==>
          nxt[u] == if u < |words| && IsSuffix(words[u], path) && |words[u]| > Depth(words, p)
                    then g[u][c := clone] else old(nxt)[u]
        invariant forall u :: 0 <= u < |words| && IsSuffix(words[u], path) && |words[u]| > Depth(words, p) ==>
          c in g[u] && g[u][c] == q
        decreases Depth(words, p)
      {
        DownPath(text, words, link[..|words|], path, p);
        var e: Edges := nxt[p][c := clone];
        nxt := nxt[p := e];
        p := link[p];
      }
      if p != -1 {
        forall u | 0 <= u < |words| && IsSuffix(words[u], path) && |words[u]| <= |words[p]|
          ensures !(c in g[u] && g[u][c] == q)
        {
          BelowStop(text, words, g, c, start, p, u);
        }
      }
    }
  }

  /** Once an edge on the path leads elsewhere than q, none further down leads to q. */
  lemma {:induction false} BelowStop(s: seq<Id>, w: seq<seq<Id>>, g: seq<Edges>, c: Id, start: nat, p: nat, u: nat)
    requires StatesOf(s, w) && EdgesOf(s, w, g)
    requires start < |w| && p < |w| && u < |w| && c in g[start]
    requires IsSuffix(w[p], w[start]) && IsSuffix(w[u], w[start]) && |w[u]| <= |w[p]|
    requires !(c in g[p] && g[p][c] == g[start][c])
    ensures !(c in g[u] && g[u][c] == g[start][c])
  {
    TargetsShrink(s, w, g, c, start, p);
    SuffixesNest(w[u], w[p], w[start]);
    TargetsShrink(s, w, g, c, p, u);
    var a, b := w[g[start][c]], w[g[p][c]];
    if |a| == |b| {
      SuffixesNest(b, a, a);
    }
  }
}
