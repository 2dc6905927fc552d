/** Prefix codes as lists of bit strings: Kraft's inequality, a code that reaches Huffman's total,
    and the cost function of the trunk gate. */
module PrefixCodes {
  import opened BitStrings
  import opened HuffmanCosts

  type Word = seq<Bit>

  /** One of the two is a prefix of the other. */
  ghost predicate Clash(x: Word, y: Word) {
    x <= y || y <= x
  }

  ghost predicate PrefixFree(code: seq<Word>) {
    code == [] || ((forall y :: y in code[1..] ==> !Clash(code[0], y)) && PrefixFree(code[1..]))
  }

  ghost function Lengths(code: seq<Word>): (ls: seq<nat>)
    ensures |ls| == |code|
  {
    if code == [] then [] else [|code[0]|] + Lengths(code[1..])
  }

  lemma {:induction false} LengthsAt(code: seq<Word>, i: nat)
    requires i < |code|
    ensures Lengths(code)[i] == |code[i]|
  {
    if i > 0 {
      LengthsAt(code[1..], i - 1);
    }
  }

  // ------------------------------------------------------------------ Kraft's inequality

  /** The words that start with b, without it. */
  ghost function Tails(code: seq<Word>, b: Bit): seq<Word> {
    if code == [] then []
    else (if code[0] != [] && code[0][0] == b then [code[0][1..]] else []) + Tails(code[1..], b)
  }

  lemma {:induction false} TailsMember(code: seq<Word>, b: Bit, y: Word)
    ensures y in Tails(code, b) <==> [b] + y in code
  {
    if code != [] {
      TailsMember(code[1..], b, y);
      assert code == [code[0]] + code[1..];
      if code[0] != [] && code[0][0] == b {
        assert code[0] == [b] + code[0][1..];
        assert [b] + y == code[0] <==> y == code[0][1..] by {
          assert ([b] + y)[1..] == y;
        }
      } else {
        assert ([b] + y)[0] == b;
      }
    }
  }

  lemma {:induction false} TailsPrefixFree(code: seq<Word>, b: Bit)
    requires PrefixFree(code)
    ensures PrefixFree(Tails(code, b))
  {
    if code != [] {
      TailsPrefixFree(code[1..], b);
      if code[0] != [] && code[0][0] == b {
        var x := code[0][1..];
        assert code[0] == [b] + x;
        assert Tails(code, b)[1..] == Tails(code[1..], b);
        forall y | y in Tails(code[1..], b)
          ensures !Clash(x, y)
        {
          TailsMember(code[1..], b, y);
          ClashExtends(b, x, y);
        }
      } else {
        assert Tails(code, b) == Tails(code[1..], b);
      }
    }
  }

  lemma {:induction false} ClashExtends(b: Bit, x: Word, y: Word)
    ensures Clash([b] + x, [b] + y) <==> Clash(x, y)
  {
    assert x <= y <==> [b] + x <= [b] + y by {
      if [b] + x <= [b] + y {
        assert forall i :: 0 <= i < |x| ==> x[i] == ([b] + x)[i + 1] == ([b] + y)[i + 1] == y[i];
      }
    }
    assert y <= x <==> [b] + y <= [b] + x by {
      if [b] + y <= [b] + x {
        assert forall i :: 0 <= i < |y| ==> y[i] == ([b] + y)[i + 1] == ([b] + x)[i + 1] == x[i];
      }
    }
  }

  ghost predicate Within(code: seq<Word>, m: nat) {
    forall i :: 0 <= i < |code| ==> |code[i]| <= m
  }

  lemma {:induction false} WithinBounded(code: seq<Word>, m: nat)
    requires Within(code, m)
    ensures Bounded(Lengths(code), m)
  {
    forall i | 0 <= i < |code| ensures Lengths(code)[i] <= m {
      LengthsAt(code, i);
    }
  }

  lemma {:induction false} TailsWithin(code: seq<Word>, b: Bit, m: nat)
    requires Within(code, m + 1)
    ensures Within(Tails(code, b), m)
  {
    if code != [] {
      TailsWithin(code[1..], b, m);
    }
  }

  ghost function WordSum(code: seq<Word>, m: nat): nat
    requires Within(code, m)
  {
    if code == [] then 0 else Pow2(m - |code[0]|) + WordSum(code[1..], m)
  }

  lemma {:induction false} WordSumIsKraftSum(code: seq<Word>, m: nat)
    requires Within(code, m)
    ensures Bounded(Lengths(code), m) && KraftSum(Lengths(code), m) == WordSum(code, m)
  {
    WithinBounded(code, m);
    if code != [] {
      WordSumIsKraftSum(code[1..], m);
      assert Lengths(code)[1..] == Lengths(code[1..]);
    }
  }

  /** Without an empty word, a code's Kraft sum is that of its two halves. */
  lemma {:induction false} KraftSplits(code: seq<Word>, m: nat)
    requires Within(code, m + 1) && [] !in code
    ensures Within(Tails(code, 0), m) && Within(Tails(code, 1), m)
    ensures WordSum(code, m + 1) == WordSum(Tails(code, 0), m) + WordSum(Tails(code, 1), m)
  {
    TailsWithin(code, 0, m);
    TailsWithin(code, 1, m);
    if code != [] {
      assert code[0] in code && code[0] != [];
      assert forall y :: y in code[1..] ==> y in code;
      KraftSplits(code[1..], m);
      TailsStep(code, m);
    }
  }

  lemma {:induction false} TailsStep(code: seq<Word>, m: nat)
    requires code != [] && code[0] != [] && Within(code, m + 1)
    ensures var b := code[0][0];
            && Within(Tails(code, b), m) && Within(Tails(code[1..], b), m)
            && WordSum(Tails(code, b), m) == Pow2(m + 1 - |code[0]|) + WordSum(Tails(code[1..], b), m)
            && Tails(code, 1 - b) == Tails(code[1..], 1 - b)
  {
    var b := code[0][0];
    TailsWithin(code, b, m);
    TailsWithin(code[1..], b, m);
    WordSumCons(code[0][1..], Tails(code[1..], b), m);
  }

  lemma {:induction false} WordSumCons(x: Word, rest: seq<Word>, m: nat)
    requires |x| <= m && Within(rest, m)
    ensures Within([x] + rest, m) && WordSum([x] + rest, m) == Pow2(m - |x|) + WordSum(rest, m)
  {
    assert ([x] + rest)[1..] == rest;
  }

  lemma {:induction false} EmptyClashes(y: Word)
    ensures Clash([], y)
  {}

  lemma {:induction false} EmptyWordIsAlone(code: seq<Word>)
    requires PrefixFree(code) && [] in code
    ensures |code| == 1
  {
    if code[0] == [] {
      if |code| > 1 {
        assert code[1] in code[1..];
        EmptyClashes(code[1]);
      }
    } else {
      EmptyWordIsAlone(code[1..]);
      assert [] in code[1..] && Clash(code[0], []);
    }
  }

  lemma {:induction false} ZeroWidth(code: seq<Word>)
    requires Within(code, 0)
    ensures code == [] || [] in code
  {
    if code != [] {
      assert code[0] == [];
    }
  }

  /** Kraft's inequality: the lengths of a prefix code leave room. */
  lemma {:induction false} PrefixCodeObeysKraft(code: seq<Word>, m: nat)
    requires PrefixFree(code) && Within(code, m)
    ensures WordSum(code, m) <= Pow2(m)
    decreases m
  {
    if m == 0 {
      ZeroWidth(code);
    }
    if [] in code {
      EmptyWordIsAlone(code);
      assert code[0] == [];
      assert WordSum(code[1..], m) == 0;
    } else if m > 0 {
      KraftSplits(code, m - 1);
      TailsPrefixFree(code, 0);
      TailsPrefixFree(code, 1);
      PrefixCodeObeysKraft(Tails(code, 0), m - 1);
      PrefixCodeObeysKraft(Tails(code, 1), m - 1);
    }
  }

  // ------------------------------------------------------------------ the optimum is reached

  ghost function CodeCost(ws: seq<nat>, code: seq<Word>): nat
    requires |ws| == |code|
  {
    Cost(ws, Lengths(code))
  }

  ghost function LongestWord(code: seq<Word>): (m: nat)
    ensures Within(code, m)
  {
    if code == [] then 0
    else var m := LongestWord(code[1..]); if |code[0]| > m then |code[0]| else m
  }

  /** No prefix code costs less than the merges. */
  lemma {:induction false} CodesCostMerges(ws: seq<nat>, code: seq<Word>)
    requires |ws| == |code| >= 1 && PrefixFree(code)
    ensures MergeTotal(Sort(ws)) <= CodeCost(ws, code)
  {
    var m := LongestWord(code);
    PrefixCodeObeysKraft(code, m);
    WordSumIsKraftSum(code, m);
    MergesAreLeastAnyOrder(ws, Lengths(code), m);
  }

  function RemoveAt<T>(s: seq<T>, p: nat): (r: seq<T>)
    requires p < |s|
    ensures |r| == |s| - 1
  {
    s[..p] + s[p + 1..]
  }

  /** Undo the merges: the merged word splits into its two children. */
  ghost function HuffmanCode(s: seq<nat>): (code: seq<Word>)
    requires |s| >= 1
    ensures |code| == |s|
    decreases |s|
  {
    if |s| == 1 then [[]]
    else
      var merged := HuffmanCode(Insert(s[2..], s[0] + s[1]));
      var p := InsertPos(s[2..], s[0] + s[1]);
      SplitWord(merged, p)
  }

  ghost function SplitWord(merged: seq<Word>, p: nat): (code: seq<Word>)
    requires p < |merged|
    ensures |code| == |merged| + 1
  {
    [merged[p] + [0], merged[p] + [1]] + RemoveAt(merged, p)
  }

  ghost predicate Separate(code: seq<Word>) {
    forall i, j :: 0 <= i < j < |code| ==> !Clash(code[i], code[j])
  }

  lemma {:induction false} SeparateIsPrefixFree(code: seq<Word>)
    requires Separate(code)
    ensures PrefixFree(code)
  {
    if code != [] {
      SeparateIsPrefixFree(code[1..]);
    }
  }

  lemma {:induction false} ChildrenClash(x: Word, b: Bit, y: Word)
    requires Clash(x + [b], y)
    ensures Clash(x, y)
  {
    if x + [b] <= y {
      assert x <= x + [b];
    } else if |y| <= |x| {
      assert y == (x + [b])[..|y|] == x[..|y|];
    }
  }

  lemma {:induction false} SplitKeepsSeparate(merged: seq<Word>, p: nat)
    requires p < |merged| && Separate(merged)
    ensures Separate(SplitWord(merged, p))
  {
    var x, rest := merged[p], RemoveAt(merged, p);
    forall j | 0 <= j < |rest|
      ensures !Clash(x + [0], rest[j]) && !Clash(x + [1], rest[j])
    {
      var k := if j < p then j else j + 1;
      assert rest[j] == merged[k] && !Clash(merged[p], merged[k]);
      if Clash(x + [0], rest[j]) {
        ChildrenClash(x, 0, rest[j]);
      }
      if Clash(x + [1], rest[j]) {
        ChildrenClash(x, 1, rest[j]);
      }
    }
    assert !Clash(x + [0], x + [1]) by {
      assert (x + [0])[|x|] != (x + [1])[|x|];
    }
  }

  lemma {:induction false} LengthsConcat(a: seq<Word>, b: seq<Word>)
    ensures Lengths(a + b) == Lengths(a) + Lengths(b)
  {
    if a == [] {
      assert a + b == b;
    } else {
      assert (a + b)[1..] == a[1..] + b;
      LengthsConcat(a[1..], b);
    }
  }

  lemma {:induction false} RemovedCost(ws: seq<nat>, p: nat, w: nat, code: seq<Word>)
    requires p <= |ws| && |code| == |ws| + 1
    ensures CodeCost(InsertAt(ws, p, w), code) == CodeCost(ws, RemoveAt(code, p)) + w * |code[p]|
  {
    var rest := RemoveAt(code, p);
    assert code == InsertAt(rest, p, code[p]);
    assert rest == rest[..p] + rest[p..];
    LengthsConcat(rest[..p], rest[p..]);
    LengthsConcat(rest[..p] + [code[p]], rest[p..]);
    LengthsConcat(rest[..p], [code[p]]);
    assert Lengths([code[p]]) == [|code[p]|];
    assert Lengths(rest)[..p] == Lengths(rest[..p]) && Lengths(rest)[p..] == Lengths(rest[p..]);
    assert Lengths(code) == InsertAt(Lengths(rest), p, |code[p]|);
    InsertAtCost(ws, Lengths(rest), p, w, |code[p]|);
  }

  lemma {:induction false} HuffmanCodeIsOptimal(s: seq<nat>)
    requires |s| >= 1
    ensures Separate(HuffmanCode(s)) && CodeCost(s, HuffmanCode(s)) == MergeTotal(s)
    decreases |s|
  {
    if |s| == 1 {
      var code := HuffmanCode(s);
      assert code[0] == [] && code[1..] == [] && Lengths(code) == [0];
      assert s[1..] == [] && Lengths(code)[1..] == [] && Cost([], []) == 0;
    } else {
      HuffmanCodeIsOptimal(Insert(s[2..], s[0] + s[1]));
      SplitIsOptimal(s, HuffmanCode(Insert(s[2..], s[0] + s[1])));
    }
  }

  lemma {:induction false} SplitIsOptimal(s: seq<nat>, merged: seq<Word>)
    requires |s| >= 2 && |merged| == |s| - 1 && Separate(merged)
    ensures var w, p := s[0] + s[1], InsertPos(s[2..], s[0] + s[1]);
            var code := SplitWord(merged, p);
            Separate(code) && CodeCost(s, code) == w + CodeCost(Insert(s[2..], w), merged)
  {
    var w, p := s[0] + s[1], InsertPos(s[2..], s[0] + s[1]);
    var code := SplitWord(merged, p);
    SplitKeepsSeparate(merged, p);
    RemovedCost(s[2..], p, w, merged);
    assert code[2..] == RemoveAt(merged, p);
    SplitCost(s, code, |merged[p]| + 1);
    MergedProduct(s[0], s[1], |merged[p]| + 1);
  }

  lemma {:induction false} SplitCost(s: seq<nat>, code: seq<Word>, l: nat)
    requires |s| == |code| >= 2 && |code[0]| == |code[1]| == l
    ensures CodeCost(s, code) == s[0] * l + s[1] * l + CodeCost(s[2..], code[2..])
  {
    LengthsAt(code, 0);
    LengthsAt(code, 1);
    assert code == code[..2] + code[2..];
    LengthsConcat(code[..2], code[2..]);
    assert Lengths(code)[2..] == Lengths(code[2..]);
    CostOfPair(s, Lengths(code));
  }

  // ------------------------------------------------------------------ the cost function

  /** A code a decoder can follow: prefix free, and no word empty. */
  ghost predicate Decodable(code: seq<Word>) {
    PrefixFree(code) && [] !in code
  }

  /** c is the least total of count times length over all decodable codes. */
  ghost predicate IsLeastCost(ws: seq<nat>, c: nat) {
    && (exists code :: |code| == |ws| && Decodable(code) && CodeCost(ws, code) == c)
    && forall code :: |code| == |ws| && Decodable(code) ==> c <= CodeCost(ws, code)
  }

  /** There is one least cost, so two algorithms that reach it agree. */
  lemma {:induction false} LeastCostIsUnique(ws: seq<nat>, c: nat, d: nat)
    requires IsLeastCost(ws, c) && IsLeastCost(ws, d)
    ensures c == d
  {
    var x: seq<Word> :| |x| == |ws| && Decodable(x) && CodeCost(ws, x) == c;
    var y: seq<Word> :| |y| == |ws| && Decodable(y) && CodeCost(ws, y) == d;
  }

  lemma {:induction false} MergesAreLeastCost(ws: seq<nat>)
    requires |ws| >= 2
    ensures IsLeastCost(ws, MergeTotal(Sort(ws)))
  {
    var code := UnsortedCode(ws);
    assert Decodable(code) by {
      if [] in code {
        EmptyWordIsAlone(code);
      }
    }
    forall other | |other| == |ws| && Decodable(other)
      ensures MergeTotal(Sort(ws)) <= CodeCost(ws, other)
    {
      CodesCostMerges(ws, other);
    }
  }

  /** Give the sorted weights' words back to the weights in their own order. */
  lemma {:induction false} UnsortWords(ws: seq<nat>, sorted: seq<Word>) returns (code: seq<Word>)
    requires |ws| == |sorted| && Separate(sorted)
    ensures |code| == |ws| && Separate(code) && multiset(code) == multiset(sorted)
    ensures CodeCost(ws, code) == CodeCost(Sort(ws), sorted)
  {
    if ws == [] {
      code := [];
    } else {
      var p := InsertPos(Sort(ws[1..]), ws[0]);
      var rest := RemoveAt(sorted, p);
      RemovedIsSeparate(sorted, p);
      var tail := UnsortWords(ws[1..], rest);
      MoveToFront(sorted, p, tail);
      code := [sorted[p]] + tail;
      RemovedCost(Sort(ws[1..]), p, ws[0], sorted);
      assert code[1..] == tail && Lengths(code)[1..] == Lengths(tail);
    }
  }

  lemma {:induction false} MoveToFront(sorted: seq<Word>, p: nat, tail: seq<Word>)
    requires p < |sorted| && Separate(sorted) && Separate(tail)
    requires multiset(tail) == multiset(RemoveAt(sorted, p))
    ensures Separate([sorted[p]] + tail) && multiset([sorted[p]] + tail) == multiset(sorted)
  {
    assert sorted == sorted[..p] + [sorted[p]] + sorted[p + 1..];
    forall i | 0 <= i < |tail|
      ensures !Clash(sorted[p], tail[i])
    {
      assert tail[i] in multiset(RemoveAt(sorted, p));
    }
  }

  lemma {:induction false} RemovedIsSeparate(code: seq<Word>, p: nat)
    requires p < |code| && Separate(code)
    ensures Separate(RemoveAt(code, p))
    ensures forall y :: y in RemoveAt(code, p) ==> !Clash(code[p], y)
  {
    var r := RemoveAt(code, p);
    forall i | 0 <= i < |r|
      ensures !Clash(code[p], r[i])
    {
      assert r[i] == code[if i < p then i else i + 1];
    }
    forall i, j | 0 <= i < j < |r|
      ensures !Clash(r[i], r[j])
    {
      assert r[i] == code[if i < p then i else i + 1] && r[j] == code[if j < p then j else j + 1];
    }
  }

  lemma {:induction false} UnsortedCode(ws: seq<nat>) returns (code: seq<Word>)
    requires |ws| >= 1
    ensures |code| == |ws| && PrefixFree(code) && CodeCost(ws, code) == MergeTotal(Sort(ws))
  {
    HuffmanCodeIsOptimal(Sort(ws));
    code := UnsortWords(ws, HuffmanCode(Sort(ws)));
    SeparateIsPrefixFree(code);
  }

  lemma {:induction false} CostOfOne(w: nat, word: Word)
    ensures CodeCost([w], [word]) == w * |word|
  {
    assert [word][1..] == [] && Lengths([word]) == [|word|];
    assert [w][1..] == [] && [|word|][1..] == [];
    assert Cost([w], [|word|]) == w * |word| + Cost([w][1..], [|word|][1..]);
  }

  lemma {:induction false} OneSymbolCost(w: nat)
    ensures IsLeastCost([w], w)
  {
    var one: Word := [0];
    CostOfOne(w, one);
    assert [one][1..] == [];
    assert |[one]| == 1 && Decodable([one]) && CodeCost([w], [one]) == w;
    forall code: seq<Word> | |code| == |[w]| && Decodable(code)
      ensures w <= CodeCost([w], code)
    {
      assert code[0] in code && code == [code[0]];
      CostOfOne(w, code[0]);
      assert w * |code[0]| >= w;
    }
  }

  function Positive(counts: seq<int>): (ws: seq<nat>) {
    if counts == [] then [] else (if counts[0] > 0 then [counts[0]] else []) + Positive(counts[1..])
  }

  predicate AnyNegative(counts: seq<int>) {
    exists i :: 0 <= i < |counts| && counts[i] < 0
  }

  datatype BitTotal = InvalidCounts | Bits(total: nat)

  /** Total bits of an optimal prefix code for these counts; a lone symbol is charged one bit. */
  method HuffmanBits(counts: seq<int>) returns (r: BitTotal)
    ensures r == InvalidCounts <==> AnyNegative(counts) || Positive(counts) == []
    ensures r.Bits? ==> IsLeastCost(Positive(counts), r.total)
  {
    var weights := Positive(counts);
    if AnyNegative(counts) || weights == [] {
      return InvalidCounts;
    }
    if |weights| == 1 {
      OneSymbolCost(weights[0]);
      assert weights == [weights[0]];
      return Bits(weights[0]);
    }
    SortSorts(weights);
    var total := MergeAll(Sort(weights));
    MergesAreLeastCost(weights);
    r := Bits(total);
  }

  /** Pop the two least weights and push their sum. */
  method MergeLeast(heap: seq<nat>) returns (merged: nat, after: seq<nat>)
    requires |heap| > 1 && Sorted(heap)
    ensures Sorted(after) && |after| == |heap| - 1
    ensures MergeTotal(heap) == merged + MergeTotal(after)
  {
    merged := heap[0] + heap[1];
    assert Sorted(heap[2..]);
    InsertSorted(heap[2..], merged);
    after := Insert(heap[2..], merged);
  }

  method MergeAll(weights: seq<nat>) returns (total: nat)
    requires Sorted(weights)
    ensures total == MergeTotal(weights)
  {
    var heap := weights;
    total := 0;
    while |heap| > 1
      invariant Sorted(heap)
      invariant total + MergeTotal(heap) == MergeTotal(weights)
      decreases |heap|
    {
      var merged;
      merged, heap := MergeLeast(heap);
      total := total + merged;
    }
  }
}
