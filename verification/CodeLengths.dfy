/** The code lengths of the four-stream encoder: Huffman's algorithm on groups of symbols, repeated
    with a doubled floor under the weights until no code is longer than twelve bits. */
module CodeLengths {
  import opened BitStrings
  import opened HuffmanCosts
  import opened PrefixCodes

  const SYMBOLS := 256
  const MAX_LENGTH := 12

  /** A heap entry: the symbols of one subtree and their total weight. */
  datatype Group = Group(weight: nat, symbols: seq<Byte>)

  ghost predicate Distinct(d: seq<Byte>) {
    forall i, j :: 0 <= i < j < |d| ==> d[i] != d[j]
  }

  /** The entries of a 256-entry table at the listed symbols. */
  ghost function At(f: seq<nat>, d: seq<Byte>): (r: seq<nat>)
    requires |f| == SYMBOLS
    ensures |r| == |d|
  {
    if d == [] then [] else [f[d[0]]] + At(f, d[1..])
  }

  lemma {:induction false} AtIndex(f: seq<nat>, d: seq<Byte>, i: nat)
    requires |f| == SYMBOLS && i < |d|
    ensures At(f, d)[i] == f[d[i]]
  {
    if i > 0 {
      AtIndex(f, d[1..], i - 1);
    }
  }

  lemma {:induction false} AtConcat(f: seq<nat>, d: seq<Byte>, e: seq<Byte>)
    requires |f| == SYMBOLS
    ensures At(f, d + e) == At(f, d) + At(f, e)
  {
    if d == [] {
      assert d + e == e;
    } else {
      assert (d + e)[1..] == d[1..] + e;
      AtConcat(f, d[1..], e);
    }
  }

  lemma {:induction false} AtSame(f: seq<nat>, g: seq<nat>, d: seq<Byte>)
    requires |f| == |g| == SYMBOLS && forall s :: s in d ==> f[s] == g[s]
    ensures At(f, d) == At(g, d)
  {
    if d != [] {
      AtSame(f, g, d[1..]);
    }
  }

  ghost function Total(ws: seq<nat>): nat {
    if ws == [] then 0 else ws[0] + Total(ws[1..])
  }

  lemma {:induction false} TotalConcat(ws: seq<nat>, vs: seq<nat>)
    ensures Total(ws + vs) == Total(ws) + Total(vs)
  {
    if ws == [] {
      assert ws + vs == vs;
    } else {
      assert (ws + vs)[1..] == ws[1..] + vs;
      TotalConcat(ws[1..], vs);
    }
  }

  // ------------------------------------------------------------------ one level deeper

  ghost predicate Deepened(lens: seq<nat>, after: seq<nat>, d: seq<Byte>) {
    && |lens| == |after| == SYMBOLS
    && forall s: Byte :: after[s] == lens[s] + if s in d then 1 else 0
  }

  lemma {:induction false} CostOfFirst(w: seq<nat>, lens: seq<nat>, d: seq<Byte>)
    requires |w| == |lens| == SYMBOLS && d != []
    ensures Cost(At(w, d), At(lens, d)) == w[d[0]] * lens[d[0]] + Cost(At(w, d[1..]), At(lens, d[1..]))
    ensures Total(At(w, d)) == w[d[0]] + Total(At(w, d[1..]))
  {
    var ws, ls := At(w, d), At(lens, d);
    assert ws[1..] == At(w, d[1..]) && ls[1..] == At(lens, d[1..]);
  }

  lemma {:induction false} DeeperCost(w: seq<nat>, lens: seq<nat>, after: seq<nat>, d: seq<Byte>)
    requires |w| == |lens| == |after| == SYMBOLS && forall s :: s in d ==> after[s] == lens[s] + 1
    ensures Cost(At(w, d), At(after, d)) == Cost(At(w, d), At(lens, d)) + Total(At(w, d))
  {
    if d != [] {
      var e := d[1..];
      CostOfFirst(w, lens, d);
      CostOfFirst(w, after, d);
      DeeperCost(w, lens, after, e);
      assert d[0] in d;
      OneDeeper(w[d[0]], lens[d[0]]);
    }
  }

  lemma {:induction false} OneDeeper(w: nat, l: nat)
    ensures w * (l + 1) == w * l + w
  {}

  lemma {:induction false} DeeperKraft(lens: seq<nat>, after: seq<nat>, d: seq<Byte>, m: nat)
    requires |lens| == |after| == SYMBOLS && forall s :: s in d ==> after[s] == lens[s] + 1
    requires Bounded(At(lens, d), m)
    ensures Bounded(At(after, d), m + 1) && KraftSum(At(after, d), m + 1) == KraftSum(At(lens, d), m)
  {
    if d != [] {
      var e, x, y := d[1..], At(lens, d), At(after, d);
      assert x[1..] == At(lens, e) && y[1..] == At(after, e);
      BoundedTail(x, m);
      DeeperKraft(lens, after, e, m);
      assert d[0] in d && x[0] <= m && y[0] == x[0] + 1;
      BoundedCons(y[0], At(after, e), m + 1);
      assert y == [y[0]] + At(after, e);
      KraftHead(x, m);
      KraftHead(y, m + 1);
    }
  }

  lemma {:induction false} KraftHead(ls: seq<nat>, m: nat)
    requires ls != [] && Bounded(ls, m)
    ensures Bounded(ls[1..], m) && ls[0] <= m && KraftSum(ls, m) == Pow2(m - ls[0]) + KraftSum(ls[1..], m)
  {}

  lemma {:induction false} BoundedTail(ls: seq<nat>, m: nat)
    requires ls != [] && Bounded(ls, m)
    ensures Bounded(ls[1..], m)
  {
    forall i | 0 <= i < |ls| - 1 ensures ls[1..][i] <= m {
      assert ls[i + 1] <= m;
    }
  }

  lemma {:induction false} BoundedCons(x: nat, ls: seq<nat>, m: nat)
    requires x <= m && Bounded(ls, m)
    ensures Bounded([x] + ls, m)
  {}

  method Deepen(lens: seq<nat>, d: seq<Byte>) returns (after: seq<nat>)
    requires |lens| == SYMBOLS && Distinct(d)
    ensures Deepened(lens, after, d)
  {
    after := lens;
    for i := 0 to |d|
      invariant |after| == SYMBOLS
      invariant forall s: Byte :: after[s] == lens[s] + if s in d[..i] then 1 else 0
    {
      assert d[..i + 1] == d[..i] + [d[i]];
      assert d[i] !in d[..i];
      after := after[d[i] := after[d[i]] + 1];
    }
    assert d[..|d|] == d;
  }

  // ------------------------------------------------------------------ the heap of groups

  /** A subtree of height h: its lengths fill the whole code space, its weight is its symbols'. */
  ghost predicate IsSubtree(w: seq<nat>, lens: seq<nat>, g: Group, h: nat)
    requires |w| == |lens| == SYMBOLS
  {
    && g.symbols != [] && Distinct(g.symbols)
    && g.weight == Total(At(w, g.symbols))
    && Bounded(At(lens, g.symbols), h) && KraftSum(At(lens, g.symbols), h) == Pow2(h)
  }

  ghost predicate Apart(a: seq<Byte>, b: seq<Byte>) {
    forall s :: s in a ==> s !in b
  }

  ghost predicate Forest(w: seq<nat>, lens: seq<nat>, queue: seq<Group>, h: nat)
    requires |w| == |lens| == SYMBOLS
  {
    && (forall i :: 0 <= i < |queue| ==> IsSubtree(w, lens, queue[i], h))
    && AllApart(queue)
  }

  ghost predicate AllApart(queue: seq<Group>) {
    forall i, j :: 0 <= i < j < |queue| ==> Apart(queue[i].symbols, queue[j].symbols)
  }

  ghost function Weights(queue: seq<Group>): (ws: seq<nat>)
    ensures |ws| == |queue|
  {
    if queue == [] then [] else [queue[0].weight] + Weights(queue[1..])
  }

  ghost function ForestCost(w: seq<nat>, lens: seq<nat>, queue: seq<Group>): nat
    requires |w| == |lens| == SYMBOLS
  {
    if queue == [] then 0
    else Cost(At(w, queue[0].symbols), At(lens, queue[0].symbols)) + ForestCost(w, lens, queue[1..])
  }

  ghost predicate Covers(queue: seq<Group>, d: seq<Byte>) {
    forall s :: s in d <==> exists i :: 0 <= i < |queue| && s in queue[i].symbols
  }

  lemma {:induction false} KraftHigher(ls: seq<nat>, h: nat)
    requires Bounded(ls, h) && KraftSum(ls, h) == Pow2(h)
    ensures Bounded(ls, h + 1) && KraftSum(ls, h + 1) == Pow2(h + 1)
  {
    KraftScale(ls, h, h + 1);
    assert Pow2(1) == 2;
  }

  lemma {:induction false} UntouchedSubtree(w: seq<nat>, lens: seq<nat>, after: seq<nat>, g: Group, h: nat)
    requires |w| == |lens| == |after| == SYMBOLS && IsSubtree(w, lens, g, h)
    requires forall s :: s in g.symbols ==> after[s] == lens[s]
    ensures IsSubtree(w, after, g, h + 1)
    ensures At(after, g.symbols) == At(lens, g.symbols)
  {
    AtSame(lens, after, g.symbols);
    KraftHigher(At(lens, g.symbols), h);
  }

  lemma {:induction false} MergedSums(w: seq<nat>, lens: seq<nat>, after: seq<nat>, a: seq<Byte>, b: seq<Byte>, h: nat)
    requires |w| == |lens| == |after| == SYMBOLS && Deepened(lens, after, a + b)
    requires Bounded(At(lens, a), h) && Bounded(At(lens, b), h)
    ensures Bounded(At(after, a + b), h + 1)
    ensures KraftSum(At(after, a + b), h + 1) == KraftSum(At(lens, a), h) + KraftSum(At(lens, b), h)
    ensures Total(At(w, a + b)) == Total(At(w, a)) + Total(At(w, b))
    ensures Cost(At(w, a + b), At(after, a + b)) ==
            Cost(At(w, a), At(lens, a)) + Cost(At(w, b), At(lens, b)) + Total(At(w, a + b))
  {
    DeeperCost(w, lens, after, a);
    DeeperCost(w, lens, after, b);
    DeeperKraft(lens, after, a, h);
    DeeperKraft(lens, after, b, h);
    AtConcat(w, a, b);
    AtConcat(after, a, b);
    TotalConcat(At(w, a), At(w, b));
    CostConcat(At(w, a), At(after, a), At(w, b), At(after, b));
    KraftConcat(At(after, a), At(after, b), h + 1);
  }

  function Merged(a: Group, b: Group): Group {
    Group(a.weight + b.weight, a.symbols + b.symbols)
  }

  lemma {:induction false} MergedSubtree(w: seq<nat>, lens: seq<nat>, after: seq<nat>, a: Group, b: Group, h: nat)
    requires |w| == |lens| == |after| == SYMBOLS
    requires IsSubtree(w, lens, a, h) && IsSubtree(w, lens, b, h) && Apart(a.symbols, b.symbols)
    requires Deepened(lens, after, a.symbols + b.symbols)
    ensures IsSubtree(w, after, Merged(a, b), h + 1)
    ensures Cost(At(w, Merged(a, b).symbols), At(after, Merged(a, b).symbols)) ==
            Cost(At(w, a.symbols), At(lens, a.symbols)) + Cost(At(w, b.symbols), At(lens, b.symbols))
              + a.weight + b.weight
  {
    MergedSums(w, lens, after, a.symbols, b.symbols, h);
    DistinctConcat(a.symbols, b.symbols);
  }

  lemma {:induction false} DistinctConcat(a: seq<Byte>, b: seq<Byte>)
    requires Distinct(a) && Distinct(b) && Apart(a, b)
    ensures Distinct(a + b)
  {
    forall i, j | 0 <= i < j < |a + b|
      ensures (a + b)[i] != (a + b)[j]
    {
      if i < |a| <= j {
        assert (a + b)[i] in a && (a + b)[j] in b;
      }
    }
  }

  // ------------------------------------------------------------------ popping and pushing

  ghost function FrontFirst(queue: seq<Group>, i: nat): seq<Group>
    requires i < |queue|
  {
    [queue[i]] + RemoveAt(queue, i)
  }

  ghost function Source(i: nat, k: nat): nat {
    if k == 0 then i else if k - 1 < i then k - 1 else k
  }

  lemma {:induction false} FrontFirstAt(queue: seq<Group>, i: nat, k: nat)
    requires i < |queue| && k < |queue|
    ensures FrontFirst(queue, i)[k] == queue[Source(i, k)]
  {}

  lemma {:induction false} FrontFirstForest(w: seq<nat>, lens: seq<nat>, queue: seq<Group>, h: nat, i: nat)
    requires |w| == |lens| == SYMBOLS && i < |queue| && Forest(w, lens, queue, h)
    ensures Forest(w, lens, FrontFirst(queue, i), h)
  {
    var q := FrontFirst(queue, i);
    forall k | 0 <= k < |q|
      ensures IsSubtree(w, lens, q[k], h)
    {
      FrontFirstAt(queue, i, k);
    }
    forall k, l | 0 <= k < l < |q|
      ensures Apart(q[k].symbols, q[l].symbols)
    {
      FrontFirstAt(queue, i, k);
      FrontFirstAt(queue, i, l);
      ApartSymmetric(queue, Source(i, k), Source(i, l));
    }
  }

  lemma {:induction false} ApartSymmetric(queue: seq<Group>, k: nat, l: nat)
    requires k < |queue| && l < |queue| && k != l
    requires AllApart(queue)
    ensures Apart(queue[k].symbols, queue[l].symbols)
  {
    if l < k {
      assert Apart(queue[l].symbols, queue[k].symbols);
    }
  }

  lemma {:induction false} FrontFirstSums(w: seq<nat>, lens: seq<nat>, queue: seq<Group>, i: nat)
    requires |w| == |lens| == SYMBOLS && i < |queue|
    ensures ForestCost(w, lens, FrontFirst(queue, i)) == ForestCost(w, lens, queue)
    ensures multiset(Weights(FrontFirst(queue, i))) == multiset(Weights(queue))
  {
    var q := FrontFirst(queue, i);
    assert q[1..] == RemoveAt(queue, i);
    if i == 0 {
      assert q == queue;
    } else {
      var rest := queue[1..];
      FrontFirstSums(w, lens, rest, i - 1);
      var r := FrontFirst(rest, i - 1);
      assert r[0] == queue[i] && r[1..] == RemoveAt(rest, i - 1);
      assert RemoveAt(queue, i) == [queue[0]] + RemoveAt(rest, i - 1);
      assert RemoveAt(queue, i)[1..] == RemoveAt(rest, i - 1);
    }
  }

  lemma {:induction false} FrontFirstCovers(queue: seq<Group>, i: nat, d: seq<Byte>)
    requires i < |queue| && Covers(queue, d)
    ensures Covers(FrontFirst(queue, i), d)
  {
    var q := FrontFirst(queue, i);
    forall s
      ensures s in d <==> exists k :: 0 <= k < |q| && s in q[k].symbols
    {
      if s in d {
        var k :| 0 <= k < |queue| && s in queue[k].symbols;
        var l := if k == i then 0 else if k < i then k + 1 else k;
        assert q[l] == queue[k];
      } else if k :| 0 <= k < |q| && s in q[k].symbols {
        FrontFirstAt(queue, i, k);
        assert false;
      }
    }
  }

  /** The state of the merging loop: a forest over d whose cost and remaining merges add up to total. */
  ghost predicate Building(w: seq<nat>, lens: seq<nat>, queue: seq<Group>, h: nat, d: seq<Byte>, total: nat) {
    && |w| == |lens| == SYMBOLS
    && Forest(w, lens, queue, h) && Covers(queue, d)
    && ForestCost(w, lens, queue) + MergeTotal(Sort(Weights(queue))) == total
    && forall s: Byte :: s !in d ==> lens[s] == 0
  }

  lemma {:induction false} FrontFirstBuilding(w: seq<nat>, lens: seq<nat>, queue: seq<Group>, h: nat, d: seq<Byte>,
                                              total: nat, i: nat)
    requires i < |queue| && Building(w, lens, queue, h, d, total)
    ensures Building(w, lens, FrontFirst(queue, i), h, d, total)
  {
    FrontFirstForest(w, lens, queue, h, i);
    FrontFirstSums(w, lens, queue, i);
    SortDependsOnContents(Weights(FrontFirst(queue, i)), Weights(queue));
    FrontFirstCovers(queue, i, d);
  }

  lemma {:induction false} WeightsConcat(p: seq<Group>, q: seq<Group>)
    ensures Weights(p + q) == Weights(p) + Weights(q)
  {
    if p == [] {
      assert p + q == q;
    } else {
      assert (p + q)[1..] == p[1..] + q;
      WeightsConcat(p[1..], q);
    }
  }

  lemma {:induction false} WeightsAt(queue: seq<Group>, i: nat)
    requires i < |queue|
    ensures Weights(queue)[i] == queue[i].weight
  {
    if i > 0 {
      WeightsAt(queue[1..], i - 1);
    }
  }

  lemma {:induction false} ForestCostConcat(w: seq<nat>, lens: seq<nat>, p: seq<Group>, q: seq<Group>)
    requires |w| == |lens| == SYMBOLS
    ensures ForestCost(w, lens, p + q) == ForestCost(w, lens, p) + ForestCost(w, lens, q)
  {
    if p == [] {
      assert p + q == q;
    } else {
      assert (p + q)[1..] == p[1..] + q;
      ForestCostConcat(w, lens, p[1..], q);
    }
  }

  lemma {:induction false} UntouchedCost(w: seq<nat>, lens: seq<nat>, after: seq<nat>, queue: seq<Group>)
    requires |w| == |lens| == |after| == SYMBOLS
    requires forall i :: 0 <= i < |queue| ==> At(after, queue[i].symbols) == At(lens, queue[i].symbols)
    ensures ForestCost(w, after, queue) == ForestCost(w, lens, queue)
  {
    if queue != [] {
      UntouchedCost(w, lens, after, queue[1..]);
    }
  }

  lemma {:induction false} RestUntouched(w: seq<nat>, lens: seq<nat>, after: seq<nat>, a: Group, b: Group,
                                         rest: seq<Group>, h: nat, i: nat)
    requires |w| == |lens| == |after| == SYMBOLS && Forest(w, lens, [a, b] + rest, h) && i < |rest|
    requires Deepened(lens, after, a.symbols + b.symbols)
    ensures IsSubtree(w, after, rest[i], h + 1) && At(after, rest[i].symbols) == At(lens, rest[i].symbols)
    ensures Apart(rest[i].symbols, Merged(a, b).symbols)
  {
    var q := [a, b] + rest;
    assert q[0] == a && q[1] == b && q[i + 2] == rest[i];
    assert Apart(q[0].symbols, q[i + 2].symbols) && Apart(q[1].symbols, q[i + 2].symbols);
    assert IsSubtree(w, lens, q[i + 2], h);
    UntouchedSubtree(w, lens, after, rest[i], h);
  }

  lemma {:induction false} MergedApart(w: seq<nat>, lens: seq<nat>, after: seq<nat>, a: Group, b: Group,
                                       rest: seq<Group>, h: nat, i: nat, j: nat)
    requires |w| == |lens| == |after| == SYMBOLS && Forest(w, lens, [a, b] + rest, h)
    requires Deepened(lens, after, a.symbols + b.symbols) && i < j <= |rest|
    ensures Apart(rest[i].symbols, (rest + [Merged(a, b)])[j].symbols)
  {
    if j < |rest| {
      RestApart([a, b], rest, i, j);
    } else {
      RestUntouched(w, lens, after, a, b, rest, h, i);
    }
  }

  lemma {:induction false} RestApart(front: seq<Group>, rest: seq<Group>, i: nat, j: nat)
    requires AllApart(front + rest) && i < j < |rest|
    ensures Apart(rest[i].symbols, rest[j].symbols)
  {
    var q := front + rest;
    assert q[|front| + i] == rest[i] && q[|front| + j] == rest[j];
  }

  /** Pushing the merge of the two front groups, which the others are apart from. */
  lemma {:induction false} MergedForest(w: seq<nat>, lens: seq<nat>, after: seq<nat>, a: Group, b: Group,
                                        rest: seq<Group>, h: nat)
    requires |w| == |lens| == |after| == SYMBOLS && Forest(w, lens, [a, b] + rest, h)
    requires Deepened(lens, after, a.symbols + b.symbols)
    ensures Forest(w, after, rest + [Merged(a, b)], h + 1)
  {
    var r := rest + [Merged(a, b)];
    FrontSubtrees(w, lens, a, b, rest, h);
    MergedSubtree(w, lens, after, a, b, h);
    forall i | 0 <= i < |r|
      ensures IsSubtree(w, after, r[i], h + 1)
    {
      if i < |rest| {
        RestUntouched(w, lens, after, a, b, rest, h, i);
      }
    }
    forall i, j | 0 <= i < j < |r|
      ensures Apart(r[i].symbols, r[j].symbols)
    {
      MergedApart(w, lens, after, a, b, rest, h, i, j);
    }
  }

  lemma {:induction false} FrontSubtrees(w: seq<nat>, lens: seq<nat>, a: Group, b: Group, rest: seq<Group>, h: nat)
    requires |w| == |lens| == SYMBOLS && Forest(w, lens, [a, b] + rest, h)
    ensures IsSubtree(w, lens, a, h) && IsSubtree(w, lens, b, h) && Apart(a.symbols, b.symbols)
  {
    var q := [a, b] + rest;
    assert q[0] == a && q[1] == b;
  }

  lemma {:induction false} MergedCost(w: seq<nat>, lens: seq<nat>, after: seq<nat>, a: Group, b: Group,
                                      rest: seq<Group>, h: nat)
    requires |w| == |lens| == |after| == SYMBOLS && Forest(w, lens, [a, b] + rest, h)
    requires Deepened(lens, after, a.symbols + b.symbols)
    ensures ForestCost(w, after, rest + [Merged(a, b)]) ==
            ForestCost(w, lens, [a, b] + rest) + a.weight + b.weight
  {
    FrontSubtrees(w, lens, a, b, rest, h);
    MergedSubtree(w, lens, after, a, b, h);
    forall i | 0 <= i < |rest|
      ensures At(after, rest[i].symbols) == At(lens, rest[i].symbols)
    {
      RestUntouched(w, lens, after, a, b, rest, h, i);
    }
    MergedForestCost(w, lens, after, a, b, rest);
  }

  lemma {:induction false} MergedForestCost(w: seq<nat>, lens: seq<nat>, after: seq<nat>, a: Group, b: Group,
                                            rest: seq<Group>)
    requires |w| == |lens| == |after| == SYMBOLS
    requires forall i :: 0 <= i < |rest| ==> At(after, rest[i].symbols) == At(lens, rest[i].symbols)
    requires Cost(At(w, Merged(a, b).symbols), At(after, Merged(a, b).symbols)) ==
             Cost(At(w, a.symbols), At(lens, a.symbols)) + Cost(At(w, b.symbols), At(lens, b.symbols))
               + a.weight + b.weight
    ensures ForestCost(w, after, rest + [Merged(a, b)]) ==
            ForestCost(w, lens, [a, b] + rest) + a.weight + b.weight
  {
    UntouchedCost(w, lens, after, rest);
    ForestCostConcat(w, after, rest, [Merged(a, b)]);
    ForestCostConcat(w, lens, [a, b], rest);
    assert [a, b][1..] == [b] && [b][1..] == [] && [Merged(a, b)][1..] == [];
  }

  lemma {:induction false} MergedCovers(a: Group, b: Group, rest: seq<Group>, d: seq<Byte>)
    requires Covers([a, b] + rest, d)
    ensures Covers(rest + [Merged(a, b)], d)
  {
    var q, r := [a, b] + rest, rest + [Merged(a, b)];
    forall s
      ensures s in d <==> exists k :: 0 <= k < |r| && s in r[k].symbols
    {
      if s in d {
        var k :| 0 <= k < |q| && s in q[k].symbols;
        assert s in r[if k < 2 then |rest| else k - 2].symbols;
      } else {
        assert s !in q[0].symbols && s !in q[1].symbols;
        forall k | 0 <= k < |r| ensures s !in r[k].symbols {
          assert k < |rest| ==> r[k] == q[k + 2];
        }
      }
    }
  }

  lemma {:induction false} PairWeights(a: Group, b: Group, rest: seq<Group>)
    ensures Weights([a, b] + rest) == [a.weight] + ([b.weight] + Weights(rest))
    ensures Weights(rest + [Merged(a, b)]) == Weights(rest) + [a.weight + b.weight]
  {
    WeightsConcat([a, b], rest);
    WeightsConcat(rest, [Merged(a, b)]);
    assert [a, b][1..] == [b] && [b][1..] == [] && [Merged(a, b)][1..] == [];
    assert Weights([a, b]) == [a.weight, b.weight] && Weights([Merged(a, b)]) == [a.weight + b.weight];
  }

  ghost predicate NoneLighter(queue: seq<Group>, weight: nat) {
    forall i :: 0 <= i < |queue| ==> weight <= queue[i].weight
  }

  lemma {:induction false} WeightsAtLeast(rest: seq<Group>, b: nat)
    requires NoneLighter(rest, b)
    ensures AtLeast(Weights(rest), b)
  {
    forall i | 0 <= i < |rest|
      ensures b <= Weights(rest)[i]
    {
      WeightsAt(rest, i);
    }
  }

  /** The heap's order after the merge, and the merges left to do. */
  lemma {:induction false} MergedOrder(a: Group, b: Group, rest: seq<Group>)
    requires a.weight <= b.weight && NoneLighter(rest, b.weight)
    ensures MergeTotal(Sort(Weights([a, b] + rest))) ==
            a.weight + b.weight + MergeTotal(Sort(Weights(rest + [Merged(a, b)])))
  {
    PairWeights(a, b, rest);
    WeightsAtLeast(rest, b.weight);
    SameMerge(a.weight, b.weight, Weights(rest), Weights([a, b] + rest), Weights(rest + [Merged(a, b)]));
  }

  lemma {:induction false} SameMerge(a: nat, b: nat, others: seq<nat>, before: seq<nat>, after: seq<nat>)
    requires a <= b && AtLeast(others, b) && before == [a] + ([b] + others) && after == others + [a + b]
    ensures MergeTotal(Sort(before)) == a + b + MergeTotal(Sort(after))
  {
    MergeOfLeast(a, b, others);
  }

  lemma {:induction false} OthersStayZero(lens: seq<nat>, after: seq<nat>, a: Group, b: Group, rest: seq<Group>,
                                          d: seq<Byte>)
    requires Covers([a, b] + rest, d) && Deepened(lens, after, a.symbols + b.symbols)
    requires forall s: Byte :: s !in d ==> lens[s] == 0
    ensures forall s: Byte :: s !in d ==> after[s] == 0
  {
    var q := [a, b] + rest;
    forall s: Byte | s !in d
      ensures after[s] == 0
    {
      assert s !in q[0].symbols && s !in q[1].symbols;
    }
  }

  /** One round of the loop. */
  lemma {:induction false} MergedBuilding(w: seq<nat>, lens: seq<nat>, after: seq<nat>, a: Group, b: Group,
                                          rest: seq<Group>, h: nat, d: seq<Byte>, total: nat)
    requires Building(w, lens, [a, b] + rest, h, d, total)
    requires a.weight <= b.weight && NoneLighter(rest, b.weight)
    requires Deepened(lens, after, a.symbols + b.symbols)
    ensures Building(w, after, rest + [Merged(a, b)], h + 1, d, total)
  {
    MergedForest(w, lens, after, a, b, rest, h);
    MergedCost(w, lens, after, a, b, rest, h);
    MergedOrder(a, b, rest);
    MergedCovers(a, b, rest, d);
    OthersStayZero(lens, after, a, b, rest, d);
  }

  // ------------------------------------------------------------------ one tree

  predicate IsLightest(queue: seq<Group>, i: int) {
    0 <= i < |queue| && forall j :: 0 <= j < |queue| ==> queue[i].weight <= queue[j].weight
  }

  /** Which group leaves the heap, of several that weigh least. */
  type Pick = seq<Group> -> nat

  ghost predicate PicksLightest(pick: Pick, queue: seq<Group>) {
    queue != [] ==> IsLightest(queue, pick(queue))
  }

  ghost predicate IsPick(pick: Pick) {
    forall queue :: PicksLightest(pick, queue)
  }

  predicate NotAfter(a: seq<Byte>, b: seq<Byte>) {
    a == [] || (b != [] && (a[0] < b[0] || (a[0] == b[0] && NotAfter(a[1..], b[1..]))))
  }

  predicate HeapOrder(a: Group, b: Group) {
    a.weight < b.weight || (a.weight == b.weight && NotAfter(a.symbols, b.symbols))
  }

  /** The top of a heap of pairs: the least weight, and of equal weights the least list of symbols. */
  function HeapTop(queue: seq<Group>): (i: nat)
    ensures queue != [] ==> IsLightest(queue, i)
  {
    if |queue| <= 1 then 0
    else
      var last, i := |queue| - 1, HeapTop(queue[..|queue| - 1]);
      if HeapOrder(queue[i], queue[last]) then i else last
  }

  lemma {:induction false} HeapTopIsPick()
    ensures IsPick(HeapTop)
  {
    forall queue
      ensures PicksLightest(HeapTop, queue)
    {
      var i := HeapTop(queue);
    }
  }

  lemma {:induction false} LightestRest(queue: seq<Group>, i: nat)
    requires IsLightest(queue, i)
    ensures NoneLighter(RemoveAt(queue, i), queue[i].weight)
  {}

  /** Pop a least group. */
  method PopLightest(queue: seq<Group>, pick: Pick) returns (a: Group, rest: seq<Group>, ghost i: nat)
    requires queue != [] && IsPick(pick)
    ensures i == pick(queue) < |queue| && a == queue[i] && rest == RemoveAt(queue, i) && NoneLighter(rest, a.weight)
  {
    assert PicksLightest(pick, queue);
    var least := pick(queue);
    LightestRest(queue, least);
    a, rest, i := queue[least], RemoveAt(queue, least), least;
  }

  lemma {:induction false} FrontFirstTwice(a: Group, queue: seq<Group>, j: nat)
    requires j < |queue|
    ensures FrontFirst(FrontFirst([a] + queue, j + 1), 1) == [a, queue[j]] + RemoveAt(queue, j)
  {}

  lemma {:induction false} SecondBuilding(w: seq<nat>, lens: seq<nat>, a: Group, queue: seq<Group>, h: nat,
                                          d: seq<Byte>, total: nat, j: nat)
    requires j < |queue| && Building(w, lens, [a] + queue, h, d, total)
    ensures Building(w, lens, [a, queue[j]] + RemoveAt(queue, j), h, d, total)
  {
    FrontFirstBuilding(w, lens, [a] + queue, h, d, total, j + 1);
    SecondTwice(w, lens, a, queue, h, d, total, j, FrontFirst([a] + queue, j + 1));
  }

  lemma {:induction false} SecondTwice(w: seq<nat>, lens: seq<nat>, a: Group, queue: seq<Group>, h: nat, d: seq<Byte>,
                                       total: nat, j: nat, q: seq<Group>)
    requires j < |queue| && q == FrontFirst([a] + queue, j + 1) && Building(w, lens, q, h, d, total)
    ensures Building(w, lens, [a, queue[j]] + RemoveAt(queue, j), h, d, total)
  {
    FrontFirstTwice(a, queue, j);
    FrontFirstBuilding(w, lens, q, h, d, total, 1);
  }

  /** One bit more for each of these symbols. */
  ghost function Lengthened(lens: seq<nat>, d: seq<Byte>): (after: seq<nat>)
    requires |lens| == SYMBOLS
    ensures Deepened(lens, after, d)
  {
    seq(SYMBOLS, s requires 0 <= s < SYMBOLS => lens[s] + if s in d then 1 else 0)
  }

  ghost function TwoPicked(pick: Pick, queue: seq<Group>): (r: (Group, Group, seq<Group>))
    requires IsPick(pick) && |queue| >= 2
    ensures |r.2| == |queue| - 2
  {
    assert PicksLightest(pick, queue);
    var i := pick(queue);
    var without := RemoveAt(queue, i);
    assert PicksLightest(pick, without);
    var j := pick(without);
    (queue[i], without[j], RemoveAt(without, j))
  }

  /** The lengths so far, and the groups still to be merged. */
  datatype Heap = Heap(lens: seq<nat>, queue: seq<Group>)

  /** One turn of the merging loop. */
  ghost function AfterMerge(pick: Pick, heap: Heap): (after: Heap)
    requires IsPick(pick) && |heap.lens| == SYMBOLS && |heap.queue| >= 2
    ensures |after.lens| == SYMBOLS && |after.queue| == |heap.queue| - 1
  {
    var (a, b, rest) := TwoPicked(pick, heap.queue);
    Heap(Lengthened(heap.lens, a.symbols + b.symbols), rest + [Merged(a, b)])
  }

  /** The lengths when all groups have been merged, picked in this way. */
  ghost function Grown(pick: Pick, heap: Heap): (lens: seq<nat>)
    requires IsPick(pick) && |heap.lens| == SYMBOLS
    ensures |lens| == SYMBOLS
    decreases |heap.queue|
  {
    if |heap.queue| <= 1 then heap.lens else Grown(pick, AfterMerge(pick, heap))
  }

  ghost predicate MergesTo(pick: Pick, heap: Heap, after: Heap)
    requires IsPick(pick)
  {
    |heap.lens| == SYMBOLS && |heap.queue| >= 2 && after == AfterMerge(pick, heap)
  }

  /** Merging on from here ends in these lengths. */
  ghost predicate GrowsTo(pick: Pick, lens: seq<nat>, queue: seq<Group>, end: seq<nat>)
    requires IsPick(pick)
  {
    |lens| == SYMBOLS && Grown(pick, Heap(lens, queue)) == end
  }

  lemma {:induction false} TurnGrows(pick: Pick, lens: seq<nat>, queue: seq<Group>, lens': seq<nat>, queue': seq<Group>,
                                     end: seq<nat>)
    requires IsPick(pick) && MergesTo(pick, Heap(lens, queue), Heap(lens', queue')) && GrowsTo(pick, lens, queue, end)
    ensures GrowsTo(pick, lens', queue', end)
  {}

  lemma {:induction false} OneDeepening(lens: seq<nat>, after: seq<nat>, d: seq<Byte>)
    requires Deepened(lens, after, d)
    ensures after == Lengthened(lens, d)
  {
    var other := Lengthened(lens, d);
    forall s: Byte
      ensures after[s] == other[s]
    {
    }
  }

  lemma {:induction false} BothDistinct(w: seq<nat>, lens: seq<nat>, a: Group, b: Group, rest: seq<Group>, h: nat)
    requires |w| == |lens| == SYMBOLS && Forest(w, lens, [a, b] + rest, h)
    ensures Distinct(a.symbols + b.symbols)
  {
    FrontSubtrees(w, lens, a, b, rest, h);
    DistinctConcat(a.symbols, b.symbols);
  }

  lemma {:induction false} TurnBuilds(pick: Pick, w: seq<nat>, lens: seq<nat>, queue: seq<Group>, h: nat,
                                      d: seq<Byte>, total: nat)
    requires IsPick(pick) && |queue| >= 2 && Building(w, lens, queue, h, d, total)
    ensures var after := AfterMerge(pick, Heap(lens, queue)); Building(w, after.lens, after.queue, h + 1, d, total)
    ensures var (a, b, _) := TwoPicked(pick, queue); Distinct(a.symbols + b.symbols)
  {
    var i := pick(queue);
    assert PicksLightest(pick, queue);
    LightestRest(queue, i);
    FrontFirstBuilding(w, lens, queue, h, d, total, i);
    SecondBuilds(pick, w, lens, queue[i], RemoveAt(queue, i), h, d, total);
  }

  lemma {:induction false} SecondBuilds(pick: Pick, w: seq<nat>, lens: seq<nat>, a: Group, queue: seq<Group>, h: nat,
                                        d: seq<Byte>, total: nat)
    requires IsPick(pick) && queue != [] && Building(w, lens, [a] + queue, h, d, total) && NoneLighter(queue, a.weight)
    ensures var j := pick(queue);
            j < |queue| && Building(w, Lengthened(lens, a.symbols + queue[j].symbols),
                                    RemoveAt(queue, j) + [Merged(a, queue[j])], h + 1, d, total)
            && Distinct(a.symbols + queue[j].symbols)
  {
    var j := pick(queue);
    assert PicksLightest(pick, queue);
    LightestRest(queue, j);
    SecondBuilding(w, lens, a, queue, h, d, total, j);
    BothDistinct(w, lens, a, queue[j], RemoveAt(queue, j), h);
    MergedBuilding(w, lens, Lengthened(lens, a.symbols + queue[j].symbols), a, queue[j], RemoveAt(queue, j), h, d,
                   total);
  }

  /** Pop two least groups, lengthen their symbols by one bit, and push the two together. */
  method MergeTwo(ghost w: seq<nat>, lens: seq<nat>, queue: seq<Group>, pick: Pick, ghost h: nat, ghost d: seq<Byte>,
                  ghost total: nat)
    returns (lens': seq<nat>, queue': seq<Group>)
    requires |queue| >= 2 && IsPick(pick) && Building(w, lens, queue, h, d, total)
    ensures |queue'| == |queue| - 1 && Building(w, lens', queue', h + 1, d, total)
    ensures MergesTo(pick, Heap(lens, queue), Heap(lens', queue'))
  {
    TurnBuilds(pick, w, lens, queue, h, d, total);
    var a, without, _ := PopLightest(queue, pick);
    var b, rest, _ := PopLightest(without, pick);
    assert TwoPicked(pick, queue) == (a, b, rest);
    lens' := Deepen(lens, a.symbols + b.symbols);
    queue' := rest + [Merged(a, b)];
    OneDeepening(lens, lens', a.symbols + b.symbols);
  }

  function Leaves(w: seq<nat>, d: seq<Byte>): (queue: seq<Group>)
    requires |w| == SYMBOLS
    ensures |queue| == |d|
  {
    seq(|d|, i requires 0 <= i < |d| => Group(w[d[i]], [d[i]]))
  }

  lemma {:induction false} LeafSums(w: seq<nat>, lens: seq<nat>, d: seq<Byte>)
    requires |w| == |lens| == SYMBOLS && forall s: Byte :: lens[s] == 0
    ensures Weights(Leaves(w, d)) == At(w, d) && ForestCost(w, lens, Leaves(w, d)) == 0
  {
    if d != [] {
      LeafSums(w, lens, d[1..]);
      assert Leaves(w, d)[1..] == Leaves(w, d[1..]);
      LeafSubtree(w, lens, d[0]);
    }
  }

  lemma {:induction false} LeafSubtree(w: seq<nat>, lens: seq<nat>, s: Byte)
    requires |w| == |lens| == SYMBOLS && lens[s] == 0
    ensures IsSubtree(w, lens, Group(w[s], [s]), 0) && Cost(At(w, [s]), At(lens, [s])) == 0
  {
    assert [s][1..] == [];
    assert At(w, [s]) == [w[s]] && At(lens, [s]) == [0];
    assert [w[s]][1..] == [] && [0][1..] == [];
    SumsOfOne(w[s], 0);
  }

  lemma {:induction false} SumsOfOne(x: nat, l: nat)
    ensures Cost([x], [l]) == x * l && Total([x]) == x && KraftSum([l], l) == 1
  {
    assert [x][1..] == [] && [l][1..] == [];
    assert KraftSum([l], l) == Pow2(0) + KraftSum([l][1..], l);
  }

  lemma {:induction false} LeavesBuilding(w: seq<nat>, lens: seq<nat>, d: seq<Byte>)
    requires |w| == |lens| == SYMBOLS && Distinct(d) && forall s: Byte :: lens[s] == 0
    ensures Building(w, lens, Leaves(w, d), 0, d, MergeTotal(Sort(At(w, d))))
  {
    LeafSums(w, lens, d);
    var q := Leaves(w, d);
    forall i | 0 <= i < |q|
      ensures IsSubtree(w, lens, q[i], 0)
    {
      LeafSubtree(w, lens, d[i]);
    }
    assert Covers(q, d) by {
      forall s
        ensures s in d <==> exists i :: 0 <= i < |q| && s in q[i].symbols
      {
        if s in d {
          var i :| 0 <= i < |d| && d[i] == s;
          assert s in q[i].symbols;
        }
      }
    }
  }

  /** leaves lists the used symbols, their lengths fill the code space, and cost what merging costs. */
  ghost predicate IsTree(w: seq<nat>, lens: seq<nat>, d: seq<Byte>, leaves: seq<Byte>, h: nat) {
    && |w| == |lens| == SYMBOLS
    && Distinct(leaves) && (forall s :: s in leaves <==> s in d)
    && (forall s: Byte :: s !in leaves ==> lens[s] == 0)
    && Bounded(At(lens, leaves), h) && KraftSum(At(lens, leaves), h) == Pow2(h)
    && Cost(At(w, leaves), At(lens, leaves)) == MergeTotal(Sort(At(w, d)))
  }

  lemma {:induction false} BuiltTree(w: seq<nat>, lens: seq<nat>, g: Group, h: nat, d: seq<Byte>)
    requires |w| == SYMBOLS && Building(w, lens, [g], h, d, MergeTotal(Sort(At(w, d))))
    ensures IsTree(w, lens, d, g.symbols, h)
  {
    assert [g][0] == g && [g][1..] == [];
    assert ForestCost(w, lens, [g]) == Cost(At(w, g.symbols), At(lens, g.symbols));
    assert Weights([g]) == [g.weight];
    SortOfOne(g.weight);
  }

  lemma {:induction false} SortOfOne(x: nat)
    ensures Sort([x]) == [x] && MergeTotal([x]) == 0
  {
    assert [x][1..] == [];
  }

  ghost function NoLengths(): (lens: seq<nat>)
    ensures |lens| == SYMBOLS
  {
    seq(SYMBOLS, _ => 0)
  }

  /** Code lengths for these weights by Huffman's algorithm. */
  method HuffmanLengths(w: seq<nat>, d: seq<Byte>, pick: Pick)
    returns (lens: seq<nat>, ghost leaves: seq<Byte>, ghost h: nat)
    requires |w| == SYMBOLS && Distinct(d) && |d| >= 1 && IsPick(pick)
    ensures IsTree(w, lens, d, leaves, h) && lens == Grown(pick, Heap(NoLengths(), Leaves(w, d)))
  {
    lens := seq(SYMBOLS, _ => 0);
    assert lens == NoLengths();
    var queue := Leaves(w, d);
    ghost var total := MergeTotal(Sort(At(w, d)));
    LeavesBuilding(w, lens, d);
    ghost var end := Grown(pick, Heap(lens, queue));
    AllToMerge(pick, lens, queue);
    lens, queue, h := MergeAll(w, lens, queue, pick, d, total, end);
    NothingToMerge(pick, lens, queue, end);
    leaves := queue[0].symbols;
    assert queue == [queue[0]];
    BuiltTree(w, lens, queue[0], h, d);
  }

  lemma {:induction false} GrownBuilds(pick: Pick, w: seq<nat>, lens: seq<nat>, queue: seq<Group>, h: nat,
                                       d: seq<Byte>, total: nat)
    returns (g: Group, k: nat)
    requires IsPick(pick) && |queue| >= 1 && Building(w, lens, queue, h, d, total)
    ensures Building(w, Grown(pick, Heap(lens, queue)), [g], k, d, total)
    decreases |queue|
  {
    if |queue| == 1 {
      g, k := queue[0], h;
      assert queue == [g];
    } else {
      TurnBuilds(pick, w, lens, queue, h, d, total);
      var after := AfterMerge(pick, Heap(lens, queue));
      g, k := GrownBuilds(pick, w, after.lens, after.queue, h + 1, d, total);
    }
  }

  /** However ties are broken, the lengths grown for these weights are a tree's. */
  lemma {:induction false} GrownIsTree(pick: Pick, w: seq<nat>, d: seq<Byte>) returns (leaves: seq<Byte>, h: nat)
    requires IsPick(pick) && |w| == SYMBOLS && Distinct(d) && |d| >= 1
    ensures IsTree(w, Grown(pick, Heap(NoLengths(), Leaves(w, d))), d, leaves, h)
  {
    LeavesBuilding(w, NoLengths(), d);
    var g;
    g, h := GrownBuilds(pick, w, NoLengths(), Leaves(w, d), 0, d, MergeTotal(Sort(At(w, d))));
    leaves := g.symbols;
    BuiltTree(w, Grown(pick, Heap(NoLengths(), Leaves(w, d))), g, h, d);
  }

  /** Merge until one group is left. */
  method MergeAll(ghost w: seq<nat>, lens0: seq<nat>, queue0: seq<Group>, pick: Pick, ghost d: seq<Byte>,
                  ghost total: nat, ghost end: seq<nat>)
    returns (lens: seq<nat>, queue: seq<Group>, ghost h: nat)
    requires |queue0| >= 1 && IsPick(pick) && Building(w, lens0, queue0, 0, d, total)
    requires GrowsTo(pick, lens0, queue0, end)
    ensures |queue| == 1 && Building(w, lens, queue, h, d, total) && GrowsTo(pick, lens, queue, end)
  {
    lens, queue, h := lens0, queue0, 0;
    while |queue| > 1
      invariant |queue| >= 1 && Building(w, lens, queue, h, d, total)
      invariant GrowsTo(pick, lens, queue, end)
      decreases |queue|
    {
      lens, queue := MergeTurn(w, lens, queue, pick, h, d, total, end);
      h := h + 1;
    }
  }

  lemma {:induction false} NothingToMerge(pick: Pick, lens: seq<nat>, queue: seq<Group>, end: seq<nat>)
    requires IsPick(pick) && GrowsTo(pick, lens, queue, end) && |queue| == 1
    ensures lens == end
  {}

  lemma {:induction false} AllToMerge(pick: Pick, lens: seq<nat>, queue: seq<Group>)
    requires IsPick(pick) && |lens| == SYMBOLS
    ensures GrowsTo(pick, lens, queue, Grown(pick, Heap(lens, queue)))
  {}

  method MergeTurn(ghost w: seq<nat>, lens: seq<nat>, queue: seq<Group>, pick: Pick, ghost h: nat, ghost d: seq<Byte>,
                   ghost total: nat, ghost end: seq<nat>)
    returns (lens': seq<nat>, queue': seq<Group>)
    requires |queue| >= 2 && IsPick(pick) && Building(w, lens, queue, h, d, total) && GrowsTo(pick, lens, queue, end)
    ensures |queue'| == |queue| - 1 && Building(w, lens', queue', h + 1, d, total)
    ensures GrowsTo(pick, lens', queue', end)
  {
    lens', queue' := MergeTwo(w, lens, queue, pick, h, d, total);
    TurnGrows(pick, lens, queue, lens', queue', end);
  }

  // ------------------------------------------------------------------ sums over the whole table

  lemma {:induction false} TotalUpdate(f: seq<nat>, i: nat)
    requires i < |f|
    ensures Total(f) == f[i] + Total(f[i := 0])
  {
    if i > 0 {
      TotalUpdate(f[1..], i - 1);
      assert f[i := 0][1..] == f[1..][i - 1 := 0];
    }
  }

  lemma {:induction false} TotalOfZeros(f: seq<nat>)
    requires forall i :: 0 <= i < |f| ==> f[i] == 0
    ensures Total(f) == 0
  {
    if f != [] {
      TotalOfZeros(f[1..]);
    }
  }

  /** A table that is zero outside distinct entries sums to those entries. */
  lemma {:induction false} SumOfEntries(f: seq<nat>, d: seq<Byte>)
    requires |f| == SYMBOLS && Distinct(d) && forall s: Byte :: s !in d ==> f[s] == 0
    ensures Total(f) == Total(At(f, d))
    decreases |d|
  {
    if d == [] {
      TotalOfZeros(f);
    } else {
      var g := f[d[0] := 0];
      TotalUpdate(f, d[0]);
      assert forall s: Byte :: s !in d[1..] ==> s == d[0] || s !in d;
      SumOfEntries(g, d[1..]);
      assert d[0] !in d[1..];
      AtSame(f, g, d[1..]);
    }
  }

  ghost function Products(w: seq<nat>, lens: seq<nat>): (f: seq<nat>)
    requires |w| == |lens|
    ensures |f| == |w|
  {
    seq(|w|, i requires 0 <= i < |w| => w[i] * lens[i])
  }

  lemma {:induction false} CostIsTotal(w: seq<nat>, lens: seq<nat>)
    requires |w| == |lens|
    ensures Cost(w, lens) == Total(Products(w, lens))
  {
    if w != [] {
      CostIsTotal(w[1..], lens[1..]);
      assert Products(w, lens)[1..] == Products(w[1..], lens[1..]);
    }
  }

  lemma {:induction false} CostOfEntries(w: seq<nat>, lens: seq<nat>, d: seq<Byte>)
    requires |w| == |lens| == SYMBOLS
    ensures Total(At(Products(w, lens), d)) == Cost(At(w, d), At(lens, d))
  {
    if d != [] {
      CostOfEntries(w, lens, d[1..]);
      assert At(w, d)[1..] == At(w, d[1..]) && At(lens, d)[1..] == At(lens, d[1..]);
      assert At(Products(w, lens), d)[1..] == At(Products(w, lens), d[1..]);
    }
  }

  /** The code space taken by the used symbols, in units of 2^-m. */
  ghost function Spaces(lens: seq<nat>, m: nat): (f: seq<nat>)
    requires Bounded(lens, m)
    ensures |f| == |lens|
  {
    seq(|lens|, i requires 0 <= i < |lens| => if lens[i] > 0 then Pow2(m - lens[i]) else 0)
  }

  ghost function CodeSpace(lens: seq<nat>, m: nat): nat
    requires Bounded(lens, m)
  {
    Total(Spaces(lens, m))
  }

  lemma {:induction false} SpaceOfEntries(lens: seq<nat>, d: seq<Byte>, m: nat)
    requires |lens| == SYMBOLS && Bounded(lens, m) && forall s :: s in d ==> lens[s] > 0
    ensures Bounded(At(lens, d), m) && Total(At(Spaces(lens, m), d)) == KraftSum(At(lens, d), m)
  {
    if d != [] {
      SpaceOfEntries(lens, d[1..], m);
      assert At(lens, d)[1..] == At(lens, d[1..]);
      assert At(Spaces(lens, m), d)[1..] == At(Spaces(lens, m), d[1..]);
      assert d[0] in d;
      BoundedCons(lens[d[0]], At(lens, d[1..]), m);
    }
  }

  lemma {:induction false} KraftAtLeast(ls: seq<nat>, i: nat, m: nat)
    requires i < |ls| && Bounded(ls, m)
    ensures KraftSum(ls, m) >= Pow2(m - ls[i]) + |ls| - 1
  {
    if i > 0 {
      KraftAtLeast(ls[1..], i - 1, m);
    } else if |ls| > 1 {
      KraftAtLeast(ls[1..], 0, m);
    }
  }

  lemma {:induction false} FullAtAny(ls: seq<nat>, h: nat, m: nat)
    requires Bounded(ls, h) && KraftSum(ls, h) == Pow2(h) && Bounded(ls, m)
    ensures KraftSum(ls, m) == Pow2(m)
  {
    if m <= h {
      FullAtLongest(ls, m, h);
    } else {
      KraftScale(ls, h, m);
      Pow2Add(m - h, h);
    }
  }

  lemma {:induction false} DistinctBytesAreFew(d: seq<Byte>, n: nat)
    requires Distinct(d) && forall i :: 0 <= i < |d| ==> d[i] < n
    ensures |d| <= n
    decreases n
  {
    if d != [] {
      assert 0 <= d[0] < n;
      if i :| 0 <= i < |d| && d[i] == n - 1 {
        DistinctBytesAreFew(RemoveAt(d, i), n - 1);
      } else {
        DistinctBytesAreFew(d, n - 1);
      }
    }
  }

  // ------------------------------------------------------------------ the symbols of the input

  /** The counts of the input's symbols, none below the floor, and zero for a symbol not in it. */
  function Raised(counts: seq<nat>, floor: nat): (w: seq<nat>)
    requires |counts| == SYMBOLS
    ensures |w| == SYMBOLS
  {
    seq(SYMBOLS, s requires 0 <= s < SYMBOLS => if 0 < counts[s] < floor then floor else counts[s])
  }

  ghost predicate IsCount(raw: seq<Byte>, counts: seq<nat>) {
    |counts| == SYMBOLS && forall s: Byte :: counts[s] == multiset(raw)[s]
  }

  ghost predicate Lists(d: seq<Byte>, counts: seq<nat>) {
    |counts| == SYMBOLS && Distinct(d) && forall s: Byte :: s in d <==> counts[s] > 0
  }

  lemma {:induction false} CountOneMore(raw: seq<Byte>, i: nat)
    requires i < |raw|
    ensures forall s: Byte :: multiset(raw[..i + 1])[s] == multiset(raw[..i])[s] + if s == raw[i] then 1 else 0
  {
    assert raw[..i + 1] == raw[..i] + [raw[i]];
  }

  /** The symbols in the order of their first occurrence. */
  ghost function FirstSeen(raw: seq<Byte>): seq<Byte> {
    if raw == [] then []
    else
      var front, last := FirstSeen(raw[..|raw| - 1]), raw[|raw| - 1];
      if last in front then front else front + [last]
  }

  /** The counter: how often each symbol occurs, and the symbols in the order of their first occurrence. */
  method Tally(raw: seq<Byte>) returns (counts: seq<nat>, d: seq<Byte>)
    ensures IsCount(raw, counts) && Lists(d, counts) && d == FirstSeen(raw)
  {
    counts := seq(SYMBOLS, _ => 0);
    d := [];
    for i := 0 to |raw|
      invariant IsCount(raw[..i], counts) && Lists(d, counts) && d == FirstSeen(raw[..i])
    {
      CountOneMore(raw, i);
      assert raw[..i + 1][..i] == raw[..i];
      if counts[raw[i]] == 0 {
        d := d + [raw[i]];
      }
      counts := counts[raw[i] := counts[raw[i]] + 1];
    }
    assert raw[..|raw|] == raw;
  }

  lemma {:induction false} PositiveUpdate(f: seq<nat>, i: nat)
    requires i < |f| && f[i] > 0
    ensures multiset(Positive(f)) == multiset(Positive(f[i := 0])) + multiset([f[i]])
  {
    if i > 0 {
      PositiveUpdate(f[1..], i - 1);
      assert f[i := 0][1..] == f[1..][i - 1 := 0];
    } else {
      assert f[i := 0][1..] == f[1..];
    }
  }

  lemma {:induction false} PositiveOfZeros(f: seq<nat>)
    requires forall i :: 0 <= i < |f| ==> f[i] == 0
    ensures Positive(f) == []
  {
    if f != [] {
      PositiveOfZeros(f[1..]);
    }
  }

  lemma {:induction false} AtCons(f: seq<nat>, d: seq<Byte>)
    requires |f| == SYMBOLS && d != []
    ensures multiset(At(f, d)) == multiset(At(f, d[1..])) + multiset([f[d[0]]])
  {}

  lemma {:induction false} ListsRest(f: seq<nat>, d: seq<Byte>)
    requires Lists(d, f) && d != []
    ensures f[d[0]] > 0 && Lists(d[1..], f[d[0] := 0]) && At(f[d[0] := 0], d[1..]) == At(f, d[1..])
  {
    assert d[0] in d && d[0] !in d[1..];
    assert forall s: Byte :: s in d[1..] <==> s in d && s != d[0];
    AtSame(f, f[d[0] := 0], d[1..]);
  }

  /** The positive weights, in symbol order, are those of the listed symbols. */
  lemma {:induction false} PositiveEntries(f: seq<nat>, d: seq<Byte>)
    requires Lists(d, f)
    ensures multiset(Positive(f)) == multiset(At(f, d))
    decreases |d|
  {
    if d == [] {
      PositiveOfZeros(f);
    } else {
      ListsRest(f, d);
      PositiveUpdate(f, d[0]);
      PositiveEntries(f[d[0] := 0], d[1..]);
      AtCons(f, d);
    }
  }

  lemma {:induction false} SameSize(ws: seq<nat>, vs: seq<nat>)
    requires multiset(ws) == multiset(vs)
    ensures |ws| == |vs|
  {
    assert |multiset(ws)| == |ws| && |multiset(vs)| == |vs|;
  }

  // ------------------------------------------------------------------ lengths at most twelve

  /** What one round of the length-limiting loop promises for the weights it used. */
  ghost predicate Codes(w: seq<nat>, lens: seq<nat>) {
    && |w| == |lens| == SYMBOLS
    && (forall s: Byte :: lens[s] > 0 <==> w[s] > 0)
    && (Positive(w) != [] ==> IsLeastCost(Positive(w), Cost(w, lens)))
    && (Bounded(lens, MAX_LENGTH) ==> CodeSpace(lens, MAX_LENGTH) == FullSpace(|Positive(w)|))
  }

  /** No symbol takes no space, one takes half of it, and several fill it. */
  ghost function FullSpace(symbols: nat): nat {
    if symbols == 0 then 0 else if symbols == 1 then 2048 else 4096
  }

  lemma {:induction false} PositiveOfListed(w: seq<nat>, d: seq<Byte>)
    requires Lists(d, w)
    ensures Sort(Positive(w)) == Sort(At(w, d)) && |Positive(w)| == |d|
  {
    PositiveEntries(w, d);
    SameSize(Positive(w), At(w, d));
    SortDependsOnContents(Positive(w), At(w, d));
  }

  lemma {:induction false} TwoLeaves(d: seq<Byte>, leaves: seq<Byte>)
    requires Distinct(d) && |d| >= 2 && forall s :: s in d ==> s in leaves
    ensures |leaves| >= 2
  {
    assert d[0] in leaves && d[1] in leaves && d[0] != d[1];
  }

  lemma {:induction false} LeavesHaveCodes(lens: seq<nat>, leaves: seq<Byte>, h: nat)
    requires |lens| == SYMBOLS && |leaves| >= 2
    requires Bounded(At(lens, leaves), h) && KraftSum(At(lens, leaves), h) == Pow2(h)
    ensures forall s :: s in leaves ==> lens[s] > 0
  {
    forall i | 0 <= i < |leaves|
      ensures lens[leaves[i]] > 0
    {
      AtIndex(lens, leaves, i);
      KraftAtLeast(At(lens, leaves), i, h);
    }
  }

  lemma {:induction false} TreeSpace(lens: seq<nat>, leaves: seq<Byte>, h: nat)
    requires |lens| == SYMBOLS && Distinct(leaves) && Bounded(lens, MAX_LENGTH)
    requires forall s: Byte :: s in leaves <==> lens[s] > 0
    requires Bounded(At(lens, leaves), h) && KraftSum(At(lens, leaves), h) == Pow2(h)
    ensures CodeSpace(lens, MAX_LENGTH) == 4096
  {
    SumOfEntries(Spaces(lens, MAX_LENGTH), leaves);
    SpaceOfEntries(lens, leaves, MAX_LENGTH);
    FullAtAny(At(lens, leaves), h, MAX_LENGTH);
    WordSizes();
  }

  lemma {:induction false} TreeCost(w: seq<nat>, lens: seq<nat>, leaves: seq<Byte>)
    requires |w| == |lens| == SYMBOLS && Distinct(leaves) && forall s: Byte :: s !in leaves ==> lens[s] == 0
    ensures Cost(w, lens) == Cost(At(w, leaves), At(lens, leaves))
  {
    CostIsTotal(w, lens);
    SumOfEntries(Products(w, lens), leaves);
    CostOfEntries(w, lens, leaves);
  }

  lemma {:induction false} TreeIsCode(w: seq<nat>, lens: seq<nat>, d: seq<Byte>, leaves: seq<Byte>, h: nat)
    requires |w| == SYMBOLS && Lists(d, w) && |d| >= 2 && IsTree(w, lens, d, leaves, h)
    ensures Codes(w, lens)
  {
    TwoLeaves(d, leaves);
    LeavesHaveCodes(lens, leaves, h);
    PositiveOfListed(w, d);
    TreeCost(w, lens, leaves);
    MergesAreLeastCost(Positive(w));
    if Bounded(lens, MAX_LENGTH) {
      TreeSpace(lens, leaves, h);
    }
  }

  /** Equal weights: the tree has at most 256 leaves, hence at most eight levels. */
  lemma {:induction false} EqualTreeIsShallow(w: seq<nat>, lens: seq<nat>, d: seq<Byte>, leaves: seq<Byte>, h: nat,
                                              f: nat)
    requires |w| == SYMBOLS && Distinct(d) && IsTree(w, lens, d, leaves, h) && d != []
    requires f > 0 && forall s :: s in d ==> w[s] == f
    ensures Bounded(lens, 8)
  {
    var ws, ls := At(w, leaves), At(lens, leaves);
    DistinctBytesAreFew(leaves, SYMBOLS);
    assert d[0] in leaves;
    EqualEntries(w, leaves, f);
    EqualEntries(w, d, f);
    SameSymbols(leaves, d);
    assert ws == At(w, d);
    EqualWeightsAreShallow(ws, ls, f, h);
    forall s: Byte
      ensures lens[s] <= 8
    {
      if s in leaves {
        var i :| 0 <= i < |leaves| && leaves[i] == s;
        AtIndex(lens, leaves, i);
        assert ls[i] <= 8;
      }
    }
  }

  lemma {:induction false} EqualEntries(w: seq<nat>, d: seq<Byte>, f: nat)
    requires |w| == SYMBOLS && forall s :: s in d ==> w[s] == f
    ensures AllEqual(At(w, d), f)
  {
    forall i | 0 <= i < |d|
      ensures At(w, d)[i] == f
    {
      AtIndex(w, d, i);
    }
  }

  lemma {:induction false} SameSymbols(d: seq<Byte>, e: seq<Byte>)
    requires Distinct(d) && Distinct(e) && forall s :: s in d <==> s in e
    ensures |d| == |e|
    decreases |d|
  {
    if d == [] {
      if e != [] {
        SomeSymbol(e);
        assert false;
      }
    } else {
      assert d[0] in e;
      var i :| 0 <= i < |e| && e[i] == d[0];
      WithoutSymbol(d, 0);
      WithoutSymbol(e, i);
      SameSymbols(RemoveAt(d, 0), RemoveAt(e, i));
    }
  }

  lemma {:induction false} SomeSymbol(e: seq<Byte>)
    requires e != []
    ensures exists s :: s in e
  {
    assert e[0] in e;
  }

  lemma {:induction false} WithoutSymbol(d: seq<Byte>, i: nat)
    requires Distinct(d) && i < |d|
    ensures Distinct(RemoveAt(d, i)) && forall s :: s in RemoveAt(d, i) <==> s in d && s != d[i]
  {
    var r := RemoveAt(d, i);
    forall s
      ensures s in r <==> s in d && s != d[i]
    {
      if s in d && s != d[i] {
        var k :| 0 <= k < |d| && d[k] == s;
        assert r[if k < i then k else k - 1] == s;
      }
    }
  }

  ghost predicate OnlyOneBit(lens: seq<nat>, s: Byte) {
    |lens| == SYMBOLS && forall t: Byte :: lens[t] == if t == s then 1 else 0
  }

  lemma {:induction false} LoneCost(w: seq<nat>, lens: seq<nat>, s: Byte)
    requires |w| == SYMBOLS && OnlyOneBit(lens, s)
    ensures Cost(w, lens) == w[s]
  {
    TreeCost(w, lens, [s]);
    assert At(w, [s]) == [w[s]] && At(lens, [s]) == [1];
    SumsOfOne(w[s], 1);
  }

  lemma {:induction false} LoneSpace(lens: seq<nat>, s: Byte)
    requires OnlyOneBit(lens, s) && Bounded(lens, MAX_LENGTH)
    ensures CodeSpace(lens, MAX_LENGTH) == 2048
  {
    SumOfEntries(Spaces(lens, MAX_LENGTH), [s]);
    assert At(Spaces(lens, MAX_LENGTH), [s]) == [Pow2(11)];
    SumsOfOne(Pow2(11), 1);
    Pow2Add(11, 1);
    WordSizes();
  }

  lemma {:induction false} LoneCode(w: seq<nat>, lens: seq<nat>, s: Byte)
    requires Lists([s], w) && OnlyOneBit(lens, s)
    ensures Codes(w, lens) && Bounded(lens, 8)
  {
    var d := [s];
    assert d[0] in d;
    PositiveOfListed(w, d);
    PositiveEntries(w, d);
    assert At(w, d) == [w[s]];
    LoneWeight(Positive(w), w[s]);
    LoneCost(w, lens, s);
    OneSymbolCost(w[s]);
    LoneSpace(lens, s);
  }

  lemma {:induction false} LoneWeight(ws: seq<nat>, x: nat)
    requires multiset(ws) == multiset([x]) && |ws| == 1
    ensures ws == [x]
  {
    assert ws == [ws[0]];
    assert ws[0] in multiset([x]);
  }

  lemma {:induction false} NoCodes(w: seq<nat>, lens: seq<nat>)
    requires Lists([], w) && |lens| == SYMBOLS && forall t: Byte :: lens[t] == 0
    ensures Codes(w, lens) && Bounded(lens, 8)
  {
    PositiveOfListed(w, []);
    if Bounded(lens, MAX_LENGTH) {
      TotalOfZeros(Spaces(lens, MAX_LENGTH));
    }
  }

  /** The lengths of one round: the tree's, or one bit for a lone symbol. */
  ghost function TreeLengths(pick: Pick, w: seq<nat>, d: seq<Byte>): (lens: seq<nat>)
    requires IsPick(pick) && |w| == SYMBOLS
    ensures |lens| == SYMBOLS
  {
    if |d| == 1 then NoLengths()[d[0] := 1] else Grown(pick, Heap(NoLengths(), Leaves(w, d)))
  }

  /** One round: Huffman's lengths for weights raised to the floor; a lone symbol gets one bit. */
  method LengthsFor(w: seq<nat>, d: seq<Byte>, pick: Pick, ghost f: nat) returns (lens: seq<nat>)
    requires Lists(d, w) && f > 0 && IsPick(pick)
    ensures Codes(w, lens) && lens == TreeLengths(pick, w, d)
    ensures (forall s: Byte :: s in d ==> w[s] == f) ==> Bounded(lens, 8)
  {
    if |d| >= 2 {
      ghost var leaves, h;
      lens, leaves, h := HuffmanLengths(w, d, pick);
      TreeIsCode(w, lens, d, leaves, h);
      if forall s: Byte :: s in d ==> w[s] == f {
        EqualTreeIsShallow(w, lens, d, leaves, h, f);
      }
    } else {
      lens := seq(SYMBOLS, _ => 0);
      assert lens == NoLengths();
      if |d| == 1 {
        lens := lens[d[0] := 1];
        assert d == [d[0]];
        LoneCode(w, lens, d[0]);
      } else {
        NoCodes(w, lens);
      }
    }
  }

  lemma {:induction false} RaisedLists(counts: seq<nat>, d: seq<Byte>, floor: nat)
    requires Lists(d, counts) && floor > 0
    ensures Lists(d, Raised(counts, floor))
    ensures floor == 1 ==> Raised(counts, floor) == counts
  {}

  lemma {:induction false} RaisedToFloor(raw: seq<Byte>, counts: seq<nat>, d: seq<Byte>, floor: nat)
    requires IsCount(raw, counts) && Lists(d, counts) && floor >= |raw|
    ensures forall s: Byte :: s in d ==> Raised(counts, floor)[s] == floor
  {
    forall s: Byte | s in d
      ensures Raised(counts, floor)[s] == floor
    {
      CountAtMost(raw, s);
    }
  }

  lemma {:induction false} CountAtMost(raw: seq<Byte>, s: Byte)
    ensures multiset(raw)[s] <= |raw|
  {
    if raw != [] {
      CountAtMost(raw[1..], s);
      assert raw == [raw[0]] + raw[1..];
    }
  }

  predicate WithinTwelve(lens: seq<nat>) {
    forall i :: 0 <= i < |lens| ==> lens[i] <= MAX_LENGTH
  }

  /** The lengths of the tree that the encoder builds at a floor. */
  ghost function LengthsAt(pick: Pick, raw: seq<Byte>, counts: seq<nat>, floor: nat): (lens: seq<nat>)
    requires IsPick(pick) && |counts| == SYMBOLS
    ensures |lens| == SYMBOLS
  {
    TreeLengths(pick, Raised(counts, floor), FirstSeen(raw))
  }

  /** The weights of a round: how often each symbol occurs, but the floor for those that occur less. */
  ghost predicate IsRaised(raw: seq<Byte>, floor: nat, w: seq<nat>) {
    |w| == SYMBOLS && forall s: Byte :: RaisedAt(raw, floor, w, s)
  }

  ghost predicate RaisedAt(raw: seq<Byte>, floor: nat, w: seq<nat>, s: Byte)
    requires |w| == SYMBOLS
  {
    var n := multiset(raw)[s];
    w[s] == if n == 0 then 0 else if n < floor then floor else n
  }

  lemma {:induction false} RaisedIs(raw: seq<Byte>, counts: seq<nat>, floor: nat)
    requires IsCount(raw, counts)
    ensures IsRaised(raw, floor, Raised(counts, floor))
  {
    forall s: Byte
      ensures RaisedAt(raw, floor, Raised(counts, floor), s)
    {
      assert counts[s] == multiset(raw)[s];
    }
  }

  /** The tree built at a floor has a length above twelve. */
  ghost predicate TooDeep(pick: Pick, raw: seq<Byte>, counts: seq<nat>, floor: nat)
    requires IsPick(pick) && |counts| == SYMBOLS
  {
    !Bounded(LengthsAt(pick, raw, counts, floor), MAX_LENGTH)
  }

  /** The floor is one doubled k times, and the tree of each floor before it is too deep. */
  ghost predicate DoubledTo(pick: Pick, raw: seq<Byte>, counts: seq<nat>, floor: nat, k: nat)
    requires IsPick(pick) && |counts| == SYMBOLS
  {
    floor == Pow2(k) && forall i: nat :: i < k ==> TooDeep(pick, raw, counts, Pow2(i))
  }

  lemma {:induction false} DoubledNext(pick: Pick, raw: seq<Byte>, counts: seq<nat>, floor: nat, k: nat)
    requires IsPick(pick) && |counts| == SYMBOLS
    requires DoubledTo(pick, raw, counts, floor, k) && TooDeep(pick, raw, counts, floor)
    ensures DoubledTo(pick, raw, counts, floor * 2, k + 1)
  {}

  lemma {:induction false} FirstSeenLists(raw: seq<Byte>)
    ensures Distinct(FirstSeen(raw)) && forall s: Byte :: s in FirstSeen(raw) <==> s in raw
  {
    if raw != [] {
      var front := raw[..|raw| - 1];
      FirstSeenLists(front);
      assert raw == front + [raw[|raw| - 1]];
    }
  }

  /** At every floor, one that is skipped too, the lengths are those of a least code for the raised weights. */
  lemma {:induction false} FloorHasTree(pick: Pick, raw: seq<Byte>, counts: seq<nat>, floor: nat)
    requires IsPick(pick) && IsCount(raw, counts) && floor >= 1
    ensures Codes(Raised(counts, floor), LengthsAt(pick, raw, counts, floor))
    ensures IsRaised(raw, floor, Raised(counts, floor))
    ensures |FirstSeen(raw)| >= 2 ==>
              exists leaves, h :: IsTree(Raised(counts, floor), LengthsAt(pick, raw, counts, floor), FirstSeen(raw),
                                         leaves, h)
  {
    var w, d, lens := Raised(counts, floor), FirstSeen(raw), LengthsAt(pick, raw, counts, floor);
    RaisedIs(raw, counts, floor);
    FirstSeenLists(raw);
    SeenAreCounted(raw, counts);
    RaisedLists(counts, d, floor);
    if |d| >= 2 {
      var leaves, h := GrownIsTree(pick, w, d);
      TreeIsCode(w, lens, d, leaves, h);
    } else if |d| == 1 {
      assert d == [d[0]];
      LoneCode(w, lens, d[0]);
    } else {
      NoCodes(w, lens);
    }
  }

  lemma {:induction false} SeenAreCounted(raw: seq<Byte>, counts: seq<nat>)
    requires IsCount(raw, counts) && Distinct(FirstSeen(raw)) && forall s: Byte :: s in FirstSeen(raw) <==> s in raw
    ensures Lists(FirstSeen(raw), counts)
  {
    forall s: Byte
      ensures s in FirstSeen(raw) <==> counts[s] > 0
    {
      assert s in raw <==> multiset(raw)[s] > 0;
    }
  }

  /** One input has one first floor whose tree fits. */
  lemma {:induction false} FirstFloorIsUnique(pick: Pick, raw: seq<Byte>, counts: seq<nat>, f: nat, g: nat, k: nat,
                                              l: nat)
    requires IsPick(pick) && |counts| == SYMBOLS
    requires DoubledTo(pick, raw, counts, f, k) && !TooDeep(pick, raw, counts, f)
    requires DoubledTo(pick, raw, counts, g, l) && !TooDeep(pick, raw, counts, g)
    ensures f == g
  {}

  /** Build the tree at one floor. A tree that is too deep has a floor below some weight. */
  method TryFloor(raw: seq<Byte>, counts: seq<nat>, d: seq<Byte>, pick: Pick, floor: nat)
    returns (lens: seq<nat>, fits: bool)
    requires IsCount(raw, counts) && Lists(d, counts) && d == FirstSeen(raw) && IsPick(pick) && floor >= 1
    ensures Codes(Raised(counts, floor), lens) && lens == LengthsAt(pick, raw, counts, floor)
    ensures fits <==> Bounded(lens, MAX_LENGTH)
    ensures !fits ==> floor < |raw|
  {
    RaisedLists(counts, d, floor);
    lens := LengthsFor(Raised(counts, floor), d, pick, floor);
    fits := WithinTwelve(lens);
    if !fits && floor >= |raw| {
      RaisedToFloor(raw, counts, d, floor);
    }
  }

  /** The encoder's code lengths: the floor under the weights is doubled until no length exceeds
      twelve. The loop ends because equal weights need at most eight bits. */
  method CodesFor(raw: seq<Byte>, pick: Pick) returns (lens: seq<nat>, ghost counts: seq<nat>, ghost floor: nat)
    requires IsPick(pick)
    ensures IsCount(raw, counts) && floor >= 1 && Codes(Raised(counts, floor), lens)
    ensures IsRaised(raw, floor, Raised(counts, floor))
    ensures lens == LengthsAt(pick, raw, counts, floor) && exists k: nat :: DoubledTo(pick, raw, counts, floor, k)
    ensures Bounded(lens, MAX_LENGTH) && CodeSpace(lens, MAX_LENGTH) <= 4096
    ensures forall s: Byte :: lens[s] > 0 <==> s in raw
    ensures floor == 1 && raw != [] ==> IsLeastCost(Positive(counts), Cost(counts, lens))
  {
    var tally, d := Tally(raw);
    counts := tally;
    lens, floor := FirstFloor(raw, tally, d, pick);
    UsedSymbols(raw, counts, lens, floor);
    RaisedIs(raw, counts, floor);
  }

  /** The first doubling whose tree fits. */
  method FirstFloor(raw: seq<Byte>, counts: seq<nat>, d: seq<Byte>, pick: Pick)
    returns (lens: seq<nat>, ghost floor: nat)
    requires IsCount(raw, counts) && Lists(d, counts) && d == FirstSeen(raw) && IsPick(pick)
    ensures floor >= 1 && Codes(Raised(counts, floor), lens) && Bounded(lens, MAX_LENGTH)
    ensures lens == LengthsAt(pick, raw, counts, floor) && exists k: nat :: DoubledTo(pick, raw, counts, floor, k)
  {
    var least: nat := 1;
    ghost var k: nat := 0;
    while true
      invariant least >= 1 && DoubledTo(pick, raw, counts, least, k)
      decreases if least < |raw| then |raw| - least else 0
    {
      var fits;
      lens, fits := TryFloor(raw, counts, d, pick, least);
      if fits {
        return lens, least;
      }
      DoubledNext(pick, raw, counts, least, k);
      least, k := least * 2, k + 1;
    }
  }

  lemma {:induction false} UsedSymbols(raw: seq<Byte>, counts: seq<nat>, lens: seq<nat>, floor: nat)
    requires IsCount(raw, counts) && floor >= 1 && Codes(Raised(counts, floor), lens)
    ensures forall s: Byte :: lens[s] > 0 <==> s in raw
    ensures Bounded(lens, MAX_LENGTH) ==> CodeSpace(lens, MAX_LENGTH) <= 4096
    ensures floor == 1 && raw != [] ==> IsLeastCost(Positive(counts), Cost(counts, lens))
  {
    forall s: Byte
      ensures lens[s] > 0 <==> s in raw
    {
      assert s in raw <==> multiset(raw)[s] > 0;
    }
    if floor == 1 && raw != [] {
      assert Raised(counts, floor) == counts;
      assert raw[0] in multiset(raw);
      PositiveHas(counts, raw[0]);
    }
  }

  lemma {:induction false} PositiveHas(f: seq<nat>, i: nat)
    requires i < |f| && f[i] > 0
    ensures Positive(f) != []
  {
    if i > 0 {
      PositiveHas(f[1..], i - 1);
    }
  }
}
