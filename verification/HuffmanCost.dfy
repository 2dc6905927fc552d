/** The cost of an optimal prefix code: the sum of all merged weights of Huffman's algorithm is
    the least sum of weight times length over every choice of lengths that obeys Kraft's
    inequality, hence over every prefix code. A heap is represented by its contents in order. */
module HuffmanCosts {
  import opened Numbers
  import opened BitStrings

  // ------------------------------------------------------------------ weighted lengths

  ghost function Cost(ws: seq<nat>, ls: seq<nat>): nat
    requires |ws| == |ls|
  {
    if ws == [] then 0 else ws[0] * ls[0] + Cost(ws[1..], ls[1..])
  }

  ghost predicate Bounded(ls: seq<nat>, m: nat) {
    forall i :: 0 <= i < |ls| ==> ls[i] <= m
  }

  /** Kraft's sum, in units of 2^-m. */
  ghost function KraftSum(ls: seq<nat>, m: nat): nat
    requires Bounded(ls, m)
  {
    if ls == [] then 0 else Pow2(m - ls[0]) + KraftSum(ls[1..], m)
  }

  ghost predicate Kraft(ls: seq<nat>, m: nat) {
    Bounded(ls, m) && KraftSum(ls, m) <= Pow2(m)
  }

  lemma {:induction false} CostConcat(ws: seq<nat>, ls: seq<nat>, vs: seq<nat>, ks: seq<nat>)
    requires |ws| == |ls| && |vs| == |ks|
    ensures Cost(ws + vs, ls + ks) == Cost(ws, ls) + Cost(vs, ks)
  {
    if ws == [] {
      assert ws + vs == vs && ls + ks == ks;
    } else {
      assert (ws + vs)[1..] == ws[1..] + vs && (ls + ks)[1..] == ls[1..] + ks;
      CostConcat(ws[1..], ls[1..], vs, ks);
    }
  }

  lemma {:induction false} KraftConcat(ls: seq<nat>, ks: seq<nat>, m: nat)
    requires Bounded(ls, m) && Bounded(ks, m)
    ensures Bounded(ls + ks, m) && KraftSum(ls + ks, m) == KraftSum(ls, m) + KraftSum(ks, m)
  {
    if ls == [] {
      assert ls + ks == ks;
    } else {
      assert (ls + ks)[1..] == ls[1..] + ks;
      KraftConcat(ls[1..], ks, m);
    }
  }

  lemma {:induction false} CostUpdate(ws: seq<nat>, ls: seq<nat>, i: nat, l: nat)
    requires |ws| == |ls| && i < |ls|
    ensures Cost(ws, ls[i := l]) == Cost(ws, ls) + ws[i] * l - ws[i] * ls[i]
  {
    if i == 0 {
      assert ls[i := l][1..] == ls[1..];
    } else {
      assert ls[i := l][1..] == ls[1..][i - 1 := l];
      CostUpdate(ws[1..], ls[1..], i - 1, l);
    }
  }

  lemma {:induction false} KraftUpdate(ls: seq<nat>, i: nat, l: nat, m: nat)
    requires Bounded(ls, m) && i < |ls| && l <= m
    ensures Bounded(ls[i := l], m)
    ensures KraftSum(ls[i := l], m) == KraftSum(ls, m) + Pow2(m - l) - Pow2(m - ls[i])
  {
    if i == 0 {
      assert ls[i := l][1..] == ls[1..];
    } else {
      assert ls[i := l][1..] == ls[1..][i - 1 := l];
      KraftUpdate(ls[1..], i - 1, l, m);
    }
  }

  lemma {:induction false} KraftScale(ls: seq<nat>, l: nat, m: nat)
    requires Bounded(ls, l) && l <= m
    ensures Bounded(ls, m) && KraftSum(ls, m) == Pow2(m - l) * KraftSum(ls, l)
  {
    if ls != [] {
      KraftScale(ls[1..], l, m);
      Pow2Add(m - l, l - ls[0]);
      Distribute(Pow2(m - l), Pow2(l - ls[0]), KraftSum(ls[1..], l));
    }
  }

  // ------------------------------------------------------------------ moving lengths around

  /** Giving the longer of two lengths to the lighter weight costs no more. */
  lemma {:induction false} SwapLengths(ws: seq<nat>, ls: seq<nat>, i: nat, j: nat, m: nat)
    requires |ws| == |ls| && i < |ls| && j < |ls| && Bounded(ls, m)
    requires ws[i] <= ws[j] && ls[i] <= ls[j]
    ensures var ks := ls[i := ls[j]][j := ls[i]];
            && Bounded(ks, m) && KraftSum(ks, m) == KraftSum(ls, m)
            && Cost(ws, ks) <= Cost(ws, ls)
  {
    var k1 := ls[i := ls[j]];
    CostUpdate(ws, ls, i, ls[j]);
    KraftUpdate(ls, i, ls[j], m);
    CostUpdate(ws, k1, j, ls[i]);
    KraftUpdate(k1, j, ls[i], m);
    if i != j {
      Exchange(ws[i], ws[j], ls[i], ls[j]);
    }
  }

  lemma {:induction false} Exchange(a: int, b: int, k: int, l: int)
    requires a <= b && k <= l
    ensures a * l + b * k <= a * k + b * l
  {
    assert (b - a) * (l - k) >= 0;
    assert (b - a) * (l - k) == b * l - b * k - a * l + a * k;
  }

  ghost function LongestAt(ls: seq<nat>, from: nat): (i: nat)
    requires from < |ls|
    ensures from <= i < |ls| && forall j :: from <= j < |ls| ==> ls[j] <= ls[i]
    decreases |ls| - from
  {
    if from + 1 == |ls| then from
    else var i := LongestAt(ls, from + 1); if ls[i] > ls[from] then i else from
  }

  lemma {:induction false} EvenSum(ls: seq<nat>, m: nat)
    requires forall i :: 0 <= i < |ls| ==> ls[i] < m
    ensures KraftSum(ls, m) % 2 == 0
  {
    if ls != [] {
      EvenSum(ls[1..], m);
      assert Pow2(m - ls[0]) == 2 * Pow2(m - ls[0] - 1);
    }
  }

  lemma {:induction false} CancelFactor(f: int, a: int, b: int)
    requires f > 0
    ensures f * a <= f * b <==> a <= b
  {
    if a <= b {
      assert f * (b - a) >= 0;
    } else {
      assert f * (a - b) > 0;
    }
  }

  lemma {:induction false} KraftAtLongest(ls: seq<nat>, l: nat, m: nat)
    requires Bounded(ls, l) && l <= m
    ensures Bounded(ls, m) && (KraftSum(ls, m) <= Pow2(m) <==> KraftSum(ls, l) <= Pow2(l))
  {
    KraftScale(ls, l, m);
    Pow2Add(m - l, l);
    SameFactor(KraftSum(ls, m), Pow2(m), Pow2(m - l), KraftSum(ls, l), Pow2(l));
  }

  lemma {:induction false} SameFactor(x: int, y: int, f: int, a: int, b: int)
    requires f > 0 && x == f * a && y == f * b
    ensures x <= y <==> a <= b
  {
    CancelFactor(f, a, b);
  }

  lemma {:induction false} ShortenAtLongest(ls: seq<nat>, l: nat)
    requires |ls| >= 2 && l == ls[0] >= 1 && Kraft(ls, l)
    requires forall j :: 0 < j < |ls| ==> ls[j] < l
    ensures Kraft(ls[0 := l - 1], l)
  {
    EvenSum(ls[1..], l);
    ShortenDeepest(ls, 0, l);
    KraftOfFirst(ls, l);
  }

  /** Of a sum that is odd and at most an even bound, one more is within it. */
  lemma {:induction false} KraftOfFirst(ls: seq<nat>, l: nat)
    requires |ls| >= 2 && l == ls[0] >= 1 && Kraft(ls, l) && KraftSum(ls[1..], l) % 2 == 0
    ensures KraftSum(ls, l) + 1 <= Pow2(l)
  {
    assert Pow2(l - ls[0]) == 1 && KraftSum(ls, l) == 1 + KraftSum(ls[1..], l);
    assert Pow2(l) == 2 * Pow2(l - 1);
    OneMoreFits(KraftSum(ls[1..], l), Pow2(l - 1));
  }

  lemma {:induction false} OneMoreFits(even: nat, half: nat)
    requires even % 2 == 0 && 1 + even <= 2 * half
    ensures 2 + even <= 2 * half
  {}

  /** A single longest length leaves room to shorten it: Kraft's sum at that length is odd. */
  lemma {:induction false} ShortenLongest(ls: seq<nat>, m: nat)
    requires |ls| >= 2 && Kraft(ls, m)
    requires forall j :: 0 < j < |ls| ==> ls[j] < ls[0]
    ensures ls[0] >= 1 && Kraft(ls[0 := ls[0] - 1], m)
  {
    var l := ls[0];
    assert ls[1] < l;
    KraftAtLongest(ls, l, m);
    ShortenAtLongest(ls, l);
    KraftAtLongest(ls[0 := l - 1], l, m);
  }

  /** Lengths no costlier in which the two lightest weights, in front, share the longest length. */
  lemma {:induction false} LevelFront(ws: seq<nat>, ls: seq<nat>, m: nat) returns (ks: seq<nat>)
    requires |ws| == |ls| >= 2 && Kraft(ls, m)
    requires forall j :: 1 < j < |ls| ==> ls[j] <= ls[1]
    requires ls[1] <= ls[0]
    ensures |ks| == |ls| && Kraft(ks, m) && Cost(ws, ks) <= Cost(ws, ls)
    ensures ks[0] == ks[1]
    decreases ls[0]
  {
    if ls[0] == ls[1] {
      ks := ls;
    } else {
      ShortenLongest(ls, m);
      CostUpdate(ws, ls, 0, ls[0] - 1);
      assert ws[0] * (ls[0] - 1) == ws[0] * ls[0] - ws[0];
      ks := LevelFront(ws, ls[0 := ls[0] - 1], m);
    }
  }

  ghost predicate Sorted(s: seq<nat>) {
    forall i, j :: 0 <= i < j < |s| ==> s[i] <= s[j]
  }

  lemma {:induction false} LongestInFront(ws: seq<nat>, ls: seq<nat>, m: nat) returns (ks: seq<nat>)
    requires |ws| == |ls| >= 2 && Kraft(ls, m) && Sorted(ws)
    ensures |ks| == |ls| && Kraft(ks, m) && Cost(ws, ks) <= Cost(ws, ls)
    ensures ks[0] == ks[1] >= 1
  {
    var i := LongestAt(ls, 0);
    SwapLengths(ws, ls, 0, i, m);
    var k1 := ls[0 := ls[i]][i := ls[0]];
    var j := LongestAt(k1, 1);
    SwapLengths(ws, k1, 1, j, m);
    var k2 := k1[1 := k1[j]][j := k1[1]];
    assert forall x :: 0 < x < |k1| ==> k1[x] <= k1[0];
    ks := LevelFront(ws, k2, m);
    PairIsLong(ks, m);
  }

  lemma {:induction false} PairIsLong(ks: seq<nat>, m: nat)
    requires |ks| >= 2 && Kraft(ks, m) && ks[0] == ks[1]
    ensures ks[0] >= 1
  {
    assert KraftSum(ks, m) == Pow2(m - ks[0]) + (Pow2(m - ks[1]) + KraftSum(ks[1..][1..], m));
  }

  // ------------------------------------------------------------------ Huffman's algorithm

  function InsertPos(s: seq<nat>, x: nat): (p: nat)
    ensures p <= |s|
  {
    if s == [] || x <= s[0] then 0 else 1 + InsertPos(s[1..], x)
  }

  lemma {:induction false} InsertPosSplits(s: seq<nat>, x: nat)
    ensures forall i :: 0 <= i < InsertPos(s, x) ==> s[i] < x
    ensures InsertPos(s, x) < |s| ==> x <= s[InsertPos(s, x)]
  {
    if s != [] && x > s[0] {
      InsertPosSplits(s[1..], x);
    }
  }

  function InsertAt<T>(s: seq<T>, p: nat, x: T): (r: seq<T>)
    requires p <= |s|
    ensures |r| == |s| + 1
  {
    s[..p] + [x] + s[p..]
  }

  function Insert(s: seq<nat>, x: nat): (r: seq<nat>)
    ensures |r| == |s| + 1
  {
    InsertAt(s, InsertPos(s, x), x)
  }

  function Sort(ws: seq<nat>): (s: seq<nat>)
    ensures |s| == |ws|
  {
    if ws == [] then [] else Insert(Sort(ws[1..]), ws[0])
  }

  lemma {:induction false} InsertSorted(s: seq<nat>, x: nat)
    requires Sorted(s)
    ensures Sorted(Insert(s, x)) && multiset(Insert(s, x)) == multiset(s) + multiset{x}
  {
    InsertPosSplits(s, x);
    InsertContents(s, InsertPos(s, x), x);
    var r, p := Insert(s, x), InsertPos(s, x);
    forall i, j | 0 <= i < j < |r|
      ensures r[i] <= r[j]
    {
      if i == p {
        assert s[p] <= s[j - 1];
      }
    }
  }

  lemma {:induction false} InsertContents(s: seq<nat>, p: nat, x: nat)
    requires p <= |s|
    ensures multiset(InsertAt(s, p, x)) == multiset(s) + multiset{x}
  {
    assert s == s[..p] + s[p..];
  }

  lemma {:induction false} SortSorts(ws: seq<nat>)
    ensures Sorted(Sort(ws)) && multiset(Sort(ws)) == multiset(ws)
  {
    if ws != [] {
      SortSorts(ws[1..]);
      InsertSorted(Sort(ws[1..]), ws[0]);
      assert ws == [ws[0]] + ws[1..];
    }
  }

  lemma {:induction false} SameLeast(s: seq<nat>, t: seq<nat>)
    requires Sorted(s) && Sorted(t) && multiset(s) == multiset(t) && s != []
    ensures t != [] && s[0] == t[0]
  {
    assert s[0] in multiset(t) && t[0] in multiset(s);
  }

  /** A sorted list is determined by its contents. */
  lemma {:induction false} SortedIsUnique(s: seq<nat>, t: seq<nat>)
    requires Sorted(s) && Sorted(t) && multiset(s) == multiset(t)
    ensures s == t
  {
    if s == [] {
      assert |multiset(t)| == 0;
    } else {
      SameLeast(s, t);
      RestContents(s);
      RestContents(t);
      SortedIsUnique(s[1..], t[1..]);
      assert s == [s[0]] + s[1..] && t == [t[0]] + t[1..];
    }
  }

  lemma {:induction false} RestContents(s: seq<nat>)
    requires s != []
    ensures multiset(s[1..]) == multiset(s) - multiset{s[0]}
  {
    assert s == [s[0]] + s[1..];
  }

  lemma {:induction false} SortDependsOnContents(ws: seq<nat>, vs: seq<nat>)
    requires multiset(ws) == multiset(vs)
    ensures Sort(ws) == Sort(vs)
  {
    SortSorts(ws);
    SortSorts(vs);
    SortedIsUnique(Sort(ws), Sort(vs));
  }

  ghost predicate AtLeast(ws: seq<nat>, b: nat) {
    forall i :: 0 <= i < |ws| ==> b <= ws[i]
  }

  lemma {:induction false} SortLeast(b: nat, ws: seq<nat>)
    requires AtLeast(ws, b)
    ensures Sort([b] + ws) == [b] + Sort(ws)
  {
    assert ([b] + ws)[1..] == ws;
    SortSorts(ws);
    if ws != [] {
      assert Sort(ws)[0] in multiset(ws);
    }
  }

  /** The total of all merges: pop the two least weights, push their sum, until one is left. */
  ghost function MergeTotal(s: seq<nat>): nat
    decreases |s|
  {
    if |s| <= 1 then 0 else s[0] + s[1] + MergeTotal(Insert(s[2..], s[0] + s[1]))
  }

  lemma {:induction false} MergeUnfolds(s: seq<nat>, t: seq<nat>, x: nat)
    requires |s| >= 2 && x == s[0] + s[1] && t == Insert(s[2..], x)
    ensures MergeTotal(s) == x + MergeTotal(t)
  {}

  lemma {:induction false} SortPushed(ws: seq<nat>, x: nat)
    ensures Sort(ws + [x]) == Insert(Sort(ws), x)
  {
    assert ([x] + ws)[1..] == ws;
    SortDependsOnContents([x] + ws, ws + [x]);
  }

  /** Popping the two least weights and pushing their sum leaves the rest of the total. */
  lemma {:induction false} LeastInFront(a: nat, b: nat, others: seq<nat>)
    requires a <= b && AtLeast(others, b)
    ensures var s := Sort([a] + ([b] + others)); |s| >= 2 && s[0] == a && s[1] == b && s[2..] == Sort(others)
  {
    SortLeast(b, others);
    SortLeast(a, [b] + others);
    assert ([a] + ([b] + Sort(others)))[2..] == Sort(others);
  }

  lemma {:induction false} MergeOfLeast(a: nat, b: nat, others: seq<nat>)
    requires a <= b && AtLeast(others, b)
    ensures MergeTotal(Sort([a] + ([b] + others))) == a + b + MergeTotal(Sort(others + [a + b]))
  {
    var s, t := Sort([a] + ([b] + others)), Sort(others + [a + b]);
    LeastInFront(a, b, others);
    SortPushed(others, a + b);
    MergeUnfolds(s, t, a + b);
  }

  lemma {:induction false} InsertAtCost(ws: seq<nat>, ls: seq<nat>, p: nat, w: nat, l: nat)
    requires |ws| == |ls| && p <= |ws|
    ensures Cost(InsertAt(ws, p, w), InsertAt(ls, p, l)) == Cost(ws, ls) + w * l
  {
    assert ws == ws[..p] + ws[p..] && ls == ls[..p] + ls[p..];
    CostConcat(ws[..p], ls[..p], ws[p..], ls[p..]);
    CostConcat(ws[..p], ls[..p], [w], [l]);
    CostConcat(ws[..p] + [w], ls[..p] + [l], ws[p..], ls[p..]);
  }

  lemma {:induction false} InsertAtKraft(ls: seq<nat>, p: nat, l: nat, m: nat)
    requires p <= |ls| && Bounded(ls, m) && l <= m
    ensures Bounded(InsertAt(ls, p, l), m) && KraftSum(InsertAt(ls, p, l), m) == KraftSum(ls, m) + Pow2(m - l)
  {
    assert ls == ls[..p] + ls[p..];
    KraftConcat(ls[..p], ls[p..], m);
    KraftConcat(ls[..p], [l], m);
    KraftConcat(ls[..p] + [l], ls[p..], m);
  }

  lemma {:induction false} CostOfPair(s: seq<nat>, ks: seq<nat>)
    requires |s| == |ks| >= 2
    ensures Cost(s, ks) == s[0] * ks[0] + s[1] * ks[1] + Cost(s[2..], ks[2..])
  {
    assert s[1..][1..] == s[2..] && ks[1..][1..] == ks[2..];
  }

  lemma {:induction false} KraftOfPair(ks: seq<nat>, m: nat)
    requires |ks| >= 2 && Bounded(ks, m)
    ensures KraftSum(ks, m) == Pow2(m - ks[0]) + Pow2(m - ks[1]) + KraftSum(ks[2..], m)
  {
    assert ks[1..][1..] == ks[2..];
  }

  lemma {:induction false} MergedProduct(a: int, b: int, l: int)
    ensures (a + b) * (l - 1) + (a + b) == a * l + b * l
  {}

  /** Merging the two front weights, of one length, into one a bit shorter. */
  lemma {:induction false} MergeFront(s: seq<nat>, ks: seq<nat>, m: nat)
    requires |s| == |ks| >= 2 && Kraft(ks, m) && ks[0] == ks[1] >= 1
    ensures var w, l := s[0] + s[1], ks[0] - 1;
            var ls := InsertAt(ks[2..], InsertPos(s[2..], w), l);
            Kraft(ls, m) && Cost(Insert(s[2..], w), ls) + w == Cost(s, ks)
  {
    var w, l := s[0] + s[1], ks[0] - 1;
    var p := InsertPos(s[2..], w);
    InsertAtCost(s[2..], ks[2..], p, w, l);
    InsertAtKraft(ks[2..], p, l, m);
    CostOfPair(s, ks);
    KraftOfPair(ks, m);
    MergedProduct(s[0], s[1], ks[0]);
  }

  /** Merging the two least weights, against any lengths that obey Kraft's inequality. */
  lemma {:induction false} MergeStep(s: seq<nat>, ls: seq<nat>, m: nat) returns (t: seq<nat>, ts: seq<nat>, w: nat)
    requires |s| == |ls| >= 2 && Sorted(s) && Kraft(ls, m)
    ensures |t| == |ts| == |s| - 1 && Sorted(t) && Kraft(ts, m)
    ensures Cost(t, ts) + w <= Cost(s, ls) && MergeTotal(s) == w + MergeTotal(t)
  {
    var ks := LongestInFront(s, ls, m);
    MergeFront(s, ks, m);
    w := s[0] + s[1];
    t, ts := Insert(s[2..], w), InsertAt(ks[2..], InsertPos(s[2..], w), ks[0] - 1);
    InsertSorted(s[2..], w);
    MergeUnfolds(s, t, w);
  }

  /** No lengths that obey Kraft's inequality cost less than the merges. */
  lemma {:induction false} MergesAreLeast(s: seq<nat>, ls: seq<nat>, m: nat)
    requires |s| == |ls| >= 1 && Sorted(s) && Kraft(ls, m)
    ensures MergeTotal(s) <= Cost(s, ls)
    decreases |s|
  {
    if |s| >= 2 {
      var t, ts, w := MergeStep(s, ls, m);
      MergesAreLeast(t, ts, m);
    }
  }

  /** The same for weights in any order. */
  ghost function SortLengths(ws: seq<nat>, ls: seq<nat>): (ks: seq<nat>)
    requires |ws| == |ls|
    ensures |ks| == |ws|
  {
    if ws == [] then [] else InsertAt(SortLengths(ws[1..], ls[1..]), InsertPos(Sort(ws[1..]), ws[0]), ls[0])
  }

  lemma {:induction false} SortKeepsSums(ws: seq<nat>, ls: seq<nat>, m: nat)
    requires |ws| == |ls| && Bounded(ls, m)
    ensures Bounded(SortLengths(ws, ls), m)
    ensures KraftSum(SortLengths(ws, ls), m) == KraftSum(ls, m)
    ensures Cost(Sort(ws), SortLengths(ws, ls)) == Cost(ws, ls)
  {
    if ws != [] {
      SortKeepsSums(ws[1..], ls[1..], m);
      var p := InsertPos(Sort(ws[1..]), ws[0]);
      InsertAtCost(Sort(ws[1..]), SortLengths(ws[1..], ls[1..]), p, ws[0], ls[0]);
      InsertAtKraft(SortLengths(ws[1..], ls[1..]), p, ls[0], m);
    }
  }

  lemma {:induction false} MergesAreLeastAnyOrder(ws: seq<nat>, ls: seq<nat>, m: nat)
    requires |ws| == |ls| >= 1 && Kraft(ls, m)
    ensures MergeTotal(Sort(ws)) <= Cost(ws, ls)
  {
    SortSorts(ws);
    SortKeepsSums(ws, ls, m);
    MergesAreLeast(Sort(ws), SortLengths(ws, ls), m);
  }

  // ------------------------------------------------------------------ equal weights

  ghost predicate AllEqual(ws: seq<nat>, f: nat) {
    forall i :: 0 <= i < |ws| ==> ws[i] == f
  }

  lemma {:induction false} LongLengthsAreSmall(ls: seq<nat>, l: nat, m: nat)
    requires Bounded(ls, m) && l <= m && forall i :: 0 <= i < |ls| ==> l <= ls[i]
    ensures KraftSum(ls, m) <= |ls| * Pow2(m - l)
  {
    if ls != [] {
      LongLengthsAreSmall(ls[1..], l, m);
      Pow2Grows(m - ls[0], m - l);
      OneMore(|ls| - 1, Pow2(m - l));
    }
  }

  lemma {:induction false} OneMore(n: nat, x: nat)
    ensures (n + 1) * x == n * x + x
  {}

  lemma {:induction false} OneLonger(ls: seq<nat>, i: nat, l: nat, m: nat)
    requires i < |ls| && Bounded(ls, m) && l < ls[i] && forall k :: 0 <= k < |ls| ==> l <= ls[k]
    ensures KraftSum(ls, m) < |ls| * Pow2(m - l)
  {
    KraftUpdate(ls, i, l, m);
    LongLengthsAreSmall(ls[i := l], l, m);
    Pow2Grows(m - ls[i], m - l - 1);
  }

  /** With a full code space, the longest length is shared. */
  lemma {:induction false} LongestIsShared(ls: seq<nat>, i: nat)
    requires i < |ls| && Bounded(ls, ls[i]) && KraftSum(ls, ls[i]) == Pow2(ls[i]) && ls[i] >= 1
    ensures exists j :: 0 <= j < |ls| && j != i && ls[j] == ls[i]
  {
    var l := ls[i];
    if forall j :: 0 <= j < |ls| && j != i ==> ls[j] < l {
      KraftUpdate(ls, i, l - 1, l);
      EvenSum(ls[i := l - 1], l);
      assert false;
    }
  }

  /** At most 256 symbols, one longer than eight bits: some symbol has fewer than eight. */
  lemma {:induction false} SomeShort(ls: seq<nat>, i: nat)
    requires i < |ls| <= 256 && Bounded(ls, ls[i]) && KraftSum(ls, ls[i]) == Pow2(ls[i]) && ls[i] > 8
    ensures exists k :: 0 <= k < |ls| && ls[k] < 8
  {
    var l := ls[i];
    if forall k :: 0 <= k < |ls| ==> 8 <= ls[k] {
      OneLonger(ls, i, 8, l);
      WordSizes();
      Pow2Add(8, l - 8);
      FewTimes(|ls|, 256, Pow2(l - 8));
      assert false;
    }
  }

  lemma {:induction false} FewTimes(a: nat, b: nat, x: nat)
    requires a <= b
    ensures a * x <= b * x
  {}

  /** Lend a bit from a short code to two of the longest ones. */
  ghost function Lend(ls: seq<nat>, i: nat, j: nat, k: nat): (r: seq<nat>)
    requires i < |ls| && j < |ls| && k < |ls| && ls[i] >= 1 && ls[j] >= 1
    ensures |r| == |ls|
  {
    ls[i := ls[i] - 1][j := ls[j] - 1][k := ls[k] + 1]
  }

  lemma {:induction false} LendObeysKraft(ls: seq<nat>, i: nat, j: nat, k: nat)
    requires i < |ls| && j < |ls| && k < |ls| && i != j && ls[i] == ls[j] && ls[k] + 2 <= ls[i]
    requires Kraft(ls, ls[i])
    ensures Kraft(Lend(ls, i, j, k), ls[i])
  {
    var l := ls[i];
    var a := ls[i := l - 1];
    var b := a[j := l - 1];
    ShortenDeepest(ls, i, l);
    ShortenDeepest(a, j, l);
    LengthenOther(b, k, l);
  }

  lemma {:induction false} ShortenDeepest(ls: seq<nat>, i: nat, l: nat)
    requires Bounded(ls, l) && i < |ls| && ls[i] == l >= 1
    ensures Bounded(ls[i := l - 1], l) && KraftSum(ls[i := l - 1], l) == KraftSum(ls, l) + 1
  {
    KraftUpdate(ls, i, l - 1, l);
    assert Pow2(1) == 2 && Pow2(0) == 1;
  }

  lemma {:induction false} LengthenOther(ls: seq<nat>, k: nat, l: nat)
    requires Bounded(ls, l) && k < |ls| && ls[k] + 2 <= l
    ensures Bounded(ls[k := ls[k] + 1], l) && KraftSum(ls[k := ls[k] + 1], l) + 2 <= KraftSum(ls, l)
  {
    KraftUpdate(ls, k, ls[k] + 1, l);
    HalfOf(l - ls[k]);
  }

  lemma {:induction false} HalfOf(n: nat)
    requires n >= 2
    ensures Pow2(n) >= 2 + Pow2(n - 1)
  {
    assert Pow2(n) == 2 * Pow2(n - 1) && Pow2(n - 1) == 2 * Pow2(n - 2);
  }

  lemma {:induction false} LendCost(ws: seq<nat>, ls: seq<nat>, i: nat, j: nat, k: nat, f: nat)
    requires |ws| == |ls| && AllEqual(ws, f)
    requires i < |ls| && j < |ls| && k < |ls| && i != j && ls[i] == ls[j] && ls[k] + 2 <= ls[i]
    ensures Cost(ws, Lend(ls, i, j, k)) + f == Cost(ws, ls)
  {
    var l := ls[i];
    var a := ls[i := l - 1];
    var b := a[j := l - 1];
    OneLess(ws, ls, i, f);
    OneLess(ws, a, j, f);
    OneLess(ws, b[k := ls[k] + 1], k, f);
    assert b[k := ls[k] + 1][k := ls[k]] == b;
  }

  lemma {:induction false} OneLess(ws: seq<nat>, ls: seq<nat>, i: nat, f: nat)
    requires |ws| == |ls| && AllEqual(ws, f) && i < |ls| && ls[i] >= 1
    ensures Cost(ws, ls[i := ls[i] - 1]) + f == Cost(ws, ls)
  {
    CostUpdate(ws, ls, i, ls[i] - 1);
    MergedProduct(f, 0, ls[i]);
  }

  /** An optimal full code for at most 256 equal weights has no code longer than eight bits. */
  lemma {:induction false} EqualWeightsAreShallow(ws: seq<nat>, ls: seq<nat>, f: nat, h: nat)
    requires 1 <= |ws| == |ls| <= 256 && f > 0 && AllEqual(ws, f)
    requires Bounded(ls, h) && KraftSum(ls, h) == Pow2(h) && Cost(ws, ls) == MergeTotal(Sort(ws))
    ensures Bounded(ls, 8)
  {
    var i := LongestAt(ls, 0);
    if ls[i] > 8 {
      FullAtLongest(ls, ls[i], h);
      LongestIsShared(ls, i);
      SomeShort(ls, i);
      var j :| 0 <= j < |ls| && j != i && ls[j] == ls[i];
      var k :| 0 <= k < |ls| && ls[k] < 8;
      LendObeysKraft(ls, i, j, k);
      LendCost(ws, ls, i, j, k, f);
      MergesAreLeastAnyOrder(ws, Lend(ls, i, j, k), ls[i]);
      assert false;
    }
  }

  lemma {:induction false} FullAtLongest(ls: seq<nat>, l: nat, h: nat)
    requires Bounded(ls, l) && Bounded(ls, h) && l <= h && KraftSum(ls, h) == Pow2(h)
    ensures KraftSum(ls, l) == Pow2(l)
  {
    KraftScale(ls, l, h);
    Pow2Add(h - l, l);
    SameFactor(KraftSum(ls, h), Pow2(h), Pow2(h - l), KraftSum(ls, l), Pow2(l));
    SameFactor(Pow2(h), KraftSum(ls, h), Pow2(h - l), Pow2(l), KraftSum(ls, l));
  }
}
