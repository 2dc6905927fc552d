/** The online policies of the replay tools: plain LRU, LRU beside a pinned hot set, and LRU beside
    lazily loaded pins. An ordered dictionary is the sequence of its keys, oldest first. */
module LruPolicies {
  import opened CachePolicies

  predicate Distinct(s: seq<Key>) {
    forall i, j :: 0 <= i < j < |s| ==> s[i] != s[j]
  }

  function Elements(s: seq<Key>): set<Key> {
    set k | k in s
  }

  lemma {:induction false} InElements(s: seq<Key>, k: Key)
    ensures k in Elements(s) <==> k in s
  {}

  function Without(s: seq<Key>, k: Key): seq<Key> {
    if s == [] then [] else if s[0] == k then s[1..] else [s[0]] + Without(s[1..], k)
  }

  lemma {:induction false} WithoutInSecond(a: seq<Key>, b: seq<Key>, k: Key)
    requires k !in a
    ensures Without(a + b, k) == a + Without(b, k)
  {
    if a == [] {
      assert a + b == b;
    } else {
      assert (a + b)[1..] == a[1..] + b;
      WithoutInSecond(a[1..], b, k);
    }
  }

  lemma {:induction false} WithoutInFirst(a: seq<Key>, b: seq<Key>, k: Key)
    requires k in a
    ensures Without(a + b, k) == Without(a, k) + b
  {
    assert (a + b)[1..] == a[1..] + b;
    if a[0] != k {
      WithoutInFirst(a[1..], b, k);
    }
  }

  lemma {:induction false} WithoutConcat(a: seq<Key>, b: seq<Key>, k: Key)
    ensures Without(a + b, k) == if k in a then Without(a, k) + b else a + Without(b, k)
  {
    if k in a {
      WithoutInFirst(a, b, k);
    } else {
      WithoutInSecond(a, b, k);
    }
  }

  lemma {:induction false} WithoutIsRemoval(s: seq<Key>, k: Key)
    requires Distinct(s)
    ensures Distinct(Without(s, k)) && Elements(Without(s, k)) == Elements(s) - {k}
    ensures |Without(s, k)| == |s| - if k in s then 1 else 0
  {
    if s != [] {
      WithoutIsRemoval(s[1..], k);
      assert s == [s[0]] + s[1..];
      forall x ensures x in Without(s[1..], k) <==> x in s[1..] && x != k {
        assert x in Elements(Without(s[1..], k)) <==> x in Elements(s[1..]) - {k};
      }
      assert s[0] !in Without(s[1..], k);
    }
  }

  lemma {:induction false} DistinctSize(s: seq<Key>)
    requires Distinct(s)
    ensures |Elements(s)| == |s|
  {
    if s != [] {
      DistinctSize(s[1..]);
      assert Elements(s) == Elements(s[1..]) + {s[0]};
    }
  }

  // ------------------------------------------------------------------ plain LRU

  function LruStep(seen: seq<Key>, cap: nat, k: Key): seq<Key>
    requires cap >= 1
  {
    if k in seen then Without(seen, k) + [k]
    else (if |seen| >= cap then seen[1..] else seen) + [k]
  }

  /** The keys held after i requests, oldest first. */
  ghost function LruOrder(trace: seq<Key>, cap: nat, i: nat): seq<Key>
    requires cap >= 1 && i <= |trace|
  {
    if i == 0 then [] else LruStep(LruOrder(trace, cap, i - 1), cap, trace[i - 1])
  }

  ghost function LruHits(trace: seq<Key>, cap: nat, n: nat): nat
    requires cap >= 1 && n <= |trace|
  {
    if n == 0 then 0
    else LruHits(trace, cap, n - 1) + if trace[n - 1] in LruOrder(trace, cap, n - 1) then 1 else 0
  }

  lemma {:induction false} LruNext(trace: seq<Key>, cap: nat, i: nat)
    requires cap >= 1 && i < |trace|
    ensures LruOrder(trace, cap, i + 1) == LruStep(LruOrder(trace, cap, i), cap, trace[i])
    ensures LruHits(trace, cap, i + 1) == LruHits(trace, cap, i) + if trace[i] in LruOrder(trace, cap, i) then 1 else 0
  {}

  /** One request: a hit moves the key to the end, a miss may push out the oldest one. */
  method LruServe(seen: seq<Key>, cap: nat, k: Key) returns (hit: bool, seen': seq<Key>)
    requires cap >= 1
    ensures hit <==> k in seen
    ensures seen' == LruStep(seen, cap, k)
  {
    hit, seen' := k in seen, seen;
    if hit {
      seen' := Without(seen, k) + [k];
    } else {
      if |seen| >= cap {
        seen' := seen[1..];
      }
      seen' := seen' + [k];
    }
  }

  method Lru(trace: seq<Key>, cap: nat) returns (hits: nat)
    requires cap >= 1
    ensures hits == LruHits(trace, cap, |trace|)
  {
    var seen: seq<Key> := [];
    hits := 0;
    for i := 0 to |trace|
      invariant seen == LruOrder(trace, cap, i)
      invariant hits == LruHits(trace, cap, i)
    {
      LruNext(trace, cap, i);
      var hit;
      hit, seen := LruServe(seen, cap, trace[i]);
      hits := if hit then hits + 1 else hits;
    }
  }

  // ------------------------------------------------------------------ the recency stack

  /** Every key requested so far, least recently used first. */
  ghost function Stack(trace: seq<Key>, i: nat): seq<Key>
    requires i <= |trace|
  {
    if i == 0 then [] else Without(Stack(trace, i - 1), trace[i - 1]) + [trace[i - 1]]
  }

  lemma {:induction false} StackDistinct(trace: seq<Key>, i: nat)
    requires i <= |trace|
    ensures Distinct(Stack(trace, i))
  {
    if i > 0 {
      StackDistinct(trace, i - 1);
      WithoutIsRemoval(Stack(trace, i - 1), trace[i - 1]);
      assert trace[i - 1] !in Elements(Without(Stack(trace, i - 1), trace[i - 1]));
    }
  }

  ghost function Newest(s: seq<Key>, n: nat): seq<Key> {
    if |s| <= n then s else s[|s| - n..]
  }

  /** LRU with cap slots holds exactly the cap most recently used keys, in order. */
  lemma {:induction false} LruIsNewest(trace: seq<Key>, cap: nat, i: nat)
    requires cap >= 1 && i <= |trace|
    ensures LruOrder(trace, cap, i) == Newest(Stack(trace, i), cap)
  {
    if i > 0 {
      LruIsNewest(trace, cap, i - 1);
      StackDistinct(trace, i - 1);
      NewestStep(Stack(trace, i - 1), cap, trace[i - 1]);
    }
  }

  lemma {:induction false} NewestStep(s: seq<Key>, cap: nat, k: Key)
    requires cap >= 1 && Distinct(s)
    ensures LruStep(Newest(s, cap), cap, k) == Newest(Without(s, k) + [k], cap)
  {
    var a := Newest(s, cap);
    var p := s[..|s| - |a|];
    assert s == p + a;
    if k in a {
      HeldKey(p, a, cap, k);
    } else {
      NewKey(p, a, cap, k);
    }
  }

  lemma {:induction false} HeldKey(p: seq<Key>, a: seq<Key>, cap: nat, k: Key)
    requires cap >= 1 && Distinct(p + a) && k in a && (|a| == cap || (p == [] && |a| <= cap))
    ensures Without(a, k) + [k] == Newest(Without(p + a, k) + [k], cap)
  {
    WithoutConcat(p, a, k);
    NotInBoth(p, a, k);
    WithoutLength(a, k);
    assert (p + Without(a, k)) + [k] == p + (Without(a, k) + [k]);
    NewestOfConcat(p, Without(a, k) + [k], cap);
  }

  lemma {:induction false} NewKey(p: seq<Key>, a: seq<Key>, cap: nat, k: Key)
    requires cap >= 1 && k !in a && (|a| == cap || (p == [] && |a| < cap))
    ensures (if |a| >= cap then a[1..] else a) + [k] == Newest(Without(p + a, k) + [k], cap)
  {
    WithoutConcat(p, a, k);
    AbsentStays(a, k);
    AbsentStaysIf(p, k);
    var p' := if k in p then Without(p, k) else p;
    assert Without(p + a, k) == p' + a;
    Shifted(p', a, cap, k);
  }

  lemma {:induction false} Shifted(p: seq<Key>, a: seq<Key>, cap: nat, k: Key)
    requires cap >= 1 && (|a| == cap || (p == [] && |a| < cap))
    ensures Newest(p + a + [k], cap) == (if |a| >= cap then a[1..] else a) + [k]
  {
    if |a| < cap {
      assert p + a + [k] == [] + (a + [k]);
      NewestOfConcat([], a + [k], cap);
    } else {
      assert p + a + [k] == (p + a[..1]) + (a[1..] + [k]);
      NewestOfConcat(p + a[..1], a[1..] + [k], cap);
    }
  }

  lemma {:induction false} AbsentStaysIf(s: seq<Key>, k: Key)
    ensures k !in s ==> Without(s, k) == s
  {
    if k !in s {
      AbsentStays(s, k);
    }
  }

  lemma {:induction false} NewestOfConcat(p: seq<Key>, a: seq<Key>, n: nat)
    requires |a| == n || (p == [] && |a| <= n)
    ensures Newest(p + a, n) == a
  {
    assert p == [] ==> p + a == a;
  }

  lemma {:induction false} NotInBoth(p: seq<Key>, a: seq<Key>, k: Key)
    requires Distinct(p + a) && k in a
    ensures k !in p
  {
    var j :| 0 <= j < |a| && a[j] == k;
    forall i | 0 <= i < |p| ensures p[i] != k {
      assert (p + a)[i] != (p + a)[|p| + j];
    }
  }

  lemma {:induction false} PartDistinct(p: seq<Key>, a: seq<Key>)
    requires Distinct(p + a)
    ensures Distinct(a)
  {
    forall i, j | 0 <= i < j < |a| ensures a[i] != a[j] {
      assert a[i] == (p + a)[|p| + i] && a[j] == (p + a)[|p| + j];
    }
  }

  lemma {:induction false} WithoutLength(s: seq<Key>, k: Key)
    ensures |Without(s, k)| == |s| - if k in s then 1 else 0
  {
    if s != [] {
      WithoutLength(s[1..], k);
    }
  }

  lemma {:induction false} AbsentStays(s: seq<Key>, k: Key)
    requires k !in s
    ensures Without(s, k) == s
  {
    if s != [] {
      AbsentStays(s[1..], k);
    }
  }

  lemma {:induction false} NewestInclusion(s: seq<Key>, cap: nat, larger: nat)
    requires cap <= larger
    ensures Elements(Newest(s, cap)) <= Elements(Newest(s, larger))
  {
    var few, many := Newest(s, cap), Newest(s, larger);
    assert |few| <= |many| && few == many[|many| - |few|..];
    forall k | k in few
      ensures k in many
    {
    }
  }

  /** Stack inclusion: a larger cache holds all a smaller one does. */
  lemma {:induction false} LruInclusion(trace: seq<Key>, cap: nat, larger: nat, n: nat)
    requires 1 <= cap <= larger && n <= |trace|
    ensures Elements(LruOrder(trace, cap, n)) <= Elements(LruOrder(trace, larger, n))
  {
    LruIsNewest(trace, cap, n);
    LruIsNewest(trace, larger, n);
    NewestInclusion(Stack(trace, n), cap, larger);
  }

  /** So hits never fall as the capacity grows. */
  lemma {:induction false} LruHitsGrow(trace: seq<Key>, cap: nat, larger: nat, n: nat)
    requires 1 <= cap <= larger && n <= |trace|
    ensures LruHits(trace, cap, n) <= LruHits(trace, larger, n)
  {
    if n > 0 {
      LruHitsGrow(trace, cap, larger, n - 1);
      LruInclusion(trace, cap, larger, n - 1);
      InElements(LruOrder(trace, cap, n - 1), trace[n - 1]);
      InElements(LruOrder(trace, larger, n - 1), trace[n - 1]);
    }
  }

  /** Since the last request for k, at j, the stack above k holds the keys requested after it. */
  lemma {:induction false} AboveLastUse(trace: seq<Key>, j: nat, i: nat) returns (p: seq<Key>, q: seq<Key>)
    requires j < i <= |trace| && trace[j] !in trace[j + 1..i]
    ensures Stack(trace, i) == p + [trace[j]] + q && Elements(q) == Elements(trace[j + 1..i])
  {
    var k := trace[j];
    if i == j + 1 {
      p, q := Without(Stack(trace, j), k), [];
      assert trace[j + 1..i] == [];
    } else {
      assert trace[j + 1..i] == trace[j + 1..i - 1] + [trace[i - 1]];
      p, q := AboveLastUse(trace, j, i - 1);
      StackDistinct(trace, i - 1);
      p, q := AboveStep(p, k, q, trace[i - 1]);
      assert Elements(trace[j + 1..i]) == Elements(trace[j + 1..i - 1]) + {trace[i - 1]};
    }
  }

  lemma {:induction false} AboveStep(p: seq<Key>, k: Key, q: seq<Key>, x: Key) returns (p': seq<Key>, q': seq<Key>)
    requires Distinct(p + [k] + q) && x != k
    ensures Without(p + [k] + q, x) + [x] == p' + [k] + q' && Elements(q') == Elements(q) + {x}
  {
    WithoutConcat(p + [k], q, x);
    WithoutConcat(p, [k], x);
    PartDistinct(p + [k], q);
    WithoutIsRemoval(q, x);
    if x in q {
      NotInBoth(p + [k], q, x);
      p', q' := p, Without(q, x) + [x];
      assert Elements(q') == Elements(Without(q, x)) + {x};
    } else {
      AbsentStays(q, x);
      p', q' := if x in p then Without(p, x) else p, q + [x];
      assert Elements(q') == Elements(q) + {x};
    }
  }

  /** A request hits LRU exactly when fewer than cap distinct keys were requested since the last
      request for the same key. */
  lemma {:induction false} LruHitIffRecent(trace: seq<Key>, cap: nat, j: nat, i: nat)
    requires cap >= 1 && j < i < |trace| && trace[i] == trace[j] && trace[j] !in trace[j + 1..i]
    ensures trace[i] in LruOrder(trace, cap, i) <==> |Elements(trace[j + 1..i])| < cap
  {
    var k := trace[i];
    var p, q := AboveLastUse(trace, j, i);
    var s := Stack(trace, i);
    StackDistinct(trace, i);
    LruIsNewest(trace, cap, i);
    PartDistinct(p + [k], q);
    DistinctSize(q);
    AmongNewest(s, p, q, k, cap);
  }

  lemma {:induction false} AmongNewest(s: seq<Key>, p: seq<Key>, q: seq<Key>, k: Key, cap: nat)
    requires s == p + [k] + q && Distinct(s)
    ensures k in Newest(s, cap) <==> |q| < cap
  {
    var few := Newest(s, cap);
    assert s[|p|] == k;
    if |q| < cap {
      assert few[|few| - 1 - |q|] == k;
    } else {
      forall a | 0 <= a < |few|
        ensures few[a] != k
      {
        assert few[a] == s[|s| - cap + a];
      }
    }
  }

  /** A key not requested before misses. */
  lemma {:induction false} FirstRequestMisses(trace: seq<Key>, cap: nat, i: nat, k: Key)
    requires cap >= 1 && i <= |trace| && k !in trace[..i]
    ensures k !in LruOrder(trace, cap, i)
  {
    if i > 0 {
      assert trace[..i] == trace[..i - 1] + [trace[i - 1]];
      FirstRequestMisses(trace, cap, i - 1, k);
      StepBringsOnlyRequest(LruOrder(trace, cap, i - 1), cap, trace[i - 1]);
      assert k !in Elements(LruOrder(trace, cap, i));
    }
  }

  lemma {:induction false} WithoutShrinks(s: seq<Key>, k: Key, x: Key)
    requires x in Without(s, k)
    ensures x in s
  {
    if s != [] && s[0] != k && x != s[0] {
      WithoutShrinks(s[1..], k, x);
    }
  }

  // ------------------------------------------------------------------ LRU is a policy

  lemma {:induction false} LruFits(trace: seq<Key>, cap: nat, i: nat)
    requires cap >= 1 && i <= |trace|
    ensures Distinct(LruOrder(trace, cap, i)) && |LruOrder(trace, cap, i)| <= cap
    ensures |Elements(LruOrder(trace, cap, i))| <= cap
  {
    StackDistinct(trace, i);
    LruIsNewest(trace, cap, i);
    var s, a := Stack(trace, i), LruOrder(trace, cap, i);
    forall x, y | 0 <= x < y < |a| ensures a[x] != a[y] {
      assert a[x] == s[|s| - |a| + x] && a[y] == s[|s| - |a| + y];
    }
    DistinctSize(a);
  }

  lemma {:induction false} StepBringsOnlyRequest(seen: seq<Key>, cap: nat, k: Key)
    requires cap >= 1
    ensures Elements(LruStep(seen, cap, k)) <= Elements(seen) + {k}
  {
    forall x | x in LruStep(seen, cap, k) && x != k
      ensures x in seen
    {
      if k in seen {
        WithoutShrinks(seen, k, x);
      }
    }
  }

  ghost function LruHeld(trace: seq<Key>, cap: nat): nat -> set<Key>
    requires cap >= 1
  {
    (i: nat) => if i <= |trace| then Elements(LruOrder(trace, cap, i)) else {}
  }

  ghost function LruTally(trace: seq<Key>, cap: nat): nat -> int
    requires cap >= 1
  {
    (i: nat) => if i <= |trace| then LruHits(trace, cap, i) else 0
  }

  lemma {:induction false} LruStepAt(trace: seq<Key>, cap: nat, held: nat -> set<Key>, tally: nat -> int, i: nat)
    requires cap >= 1 && i < |trace| && held == LruHeld(trace, cap) && tally == LruTally(trace, cap)
    ensures PolicyStep(trace, cap, held, tally, i)
  {
    LruFits(trace, cap, i);
    LruFits(trace, cap, i + 1);
    LruNext(trace, cap, i);
    StepBringsOnlyRequest(LruOrder(trace, cap, i), cap, trace[i]);
    InElements(LruOrder(trace, cap, i), trace[i]);
  }

  lemma {:induction false} LruIsPolicy(trace: seq<Key>, cap: nat)
    requires cap >= 1
    ensures Achievable(trace, cap, LruHits(trace, cap, |trace|))
  {
    var held, tally := LruHeld(trace, cap), LruTally(trace, cap);
    forall i | 0 <= i < |trace|
      ensures PolicyStep(trace, cap, held, tally, i)
    {
      LruStepAt(trace, cap, held, tally, i);
    }
    PolicyAchieves(trace, cap, held, tally);
  }

  /** The offline optimum is a ceiling for LRU with the same number of slots. */
  lemma {:induction false} LruIsBounded(trace: seq<Key>, cap: nat, best: int)
    requires cap >= 1 && IsOptimal(trace, cap, best)
    ensures LruHits(trace, cap, |trace|) <= best
  {
    LruIsPolicy(trace, cap);
  }
}
