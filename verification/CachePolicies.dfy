/** Replacement policies replayed over a recorded request trace, and the offline optimum.

    A policy is any sequence of resident sets: it starts empty, each request may bring in only the
    key requested, anything may be dropped at any time, and at most cap keys are resident. A request
    hits when its key is resident. Whether to keep a missed key at all is the policy's choice. */
module CachePolicies {

  type Key = int

  ghost predicate IsRun(trace: seq<Key>, cap: nat, run: seq<set<Key>>) {
    && |run| == |trace| + 1 && run[0] == {}
    && (forall i :: 0 <= i < |run| ==> |run[i]| <= cap)
    && forall i {:trigger OnDemand(trace, run, i)} :: 0 <= i < |trace| ==> OnDemand(trace, run, i)
  }

  /** Request i brings in nothing but the key requested. */
  ghost predicate OnDemand(trace: seq<Key>, run: seq<set<Key>>, i: nat)
    requires i < |trace| && i + 1 < |run|
  {
    run[i + 1] <= run[i] + {trace[i]}
  }

  ghost function Hits(trace: seq<Key>, run: seq<set<Key>>, n: nat): nat
    requires n <= |trace| && n <= |run|
  {
    if n == 0 then 0 else Hits(trace, run, n - 1) + if trace[n - 1] in run[n - 1] then 1 else 0
  }

  /** Some policy with cap slots has exactly h hits. */
  ghost predicate Achievable(trace: seq<Key>, cap: nat, h: int) {
    exists run :: IsRun(trace, cap, run) && Hits(trace, run, |trace|) == h
  }

  /** h hits are reached by some policy with cap slots, and no policy reaches more. */
  ghost predicate IsOptimal(trace: seq<Key>, cap: nat, h: int) {
    Achievable(trace, cap, h) && forall g :: Achievable(trace, cap, g) ==> g <= h
  }

  // ------------------------------------------------------------------ next uses

  /** The first request for k at or after i; the length of the trace when there is none. */
  ghost function NextUse(trace: seq<Key>, i: nat, k: Key): (j: nat)
    requires i <= |trace|
    ensures i <= j <= |trace|
    decreases |trace| - i
  {
    if i == |trace| then i else if trace[i] == k then i else NextUse(trace, i + 1, k)
  }

  /** The keys of s that are requested again before t. */
  ghost function UsedBefore(trace: seq<Key>, i: nat, s: set<Key>, t: int): set<Key>
    requires i <= |trace|
  {
    set k | k in s && NextUse(trace, i, k) < t
  }

  /** By how many keys needed before t the residents r outnumber b. */
  ghost function Lead(trace: seq<Key>, i: nat, b: set<Key>, r: set<Key>, t: int): int
    requires i <= |trace|
  {
    |UsedBefore(trace, i, r, t)| - |UsedBefore(trace, i, b, t)|
  }

  /** How Belady's residents b, with hb hits so far, compare with any other policy's: whatever lead
      the other has in keys needed before t, Belady has at least as large a lead in hits. */
  ghost predicate Ahead(trace: seq<Key>, i: nat, b: set<Key>, hb: int, r: set<Key>, hr: int)
    requires i <= |trace|
  {
    forall t :: t <= |trace| ==> Lead(trace, i, b, r, t) <= hb - hr
  }

  /** What one request of the optimal policy does to its residents. */
  ghost predicate BeladyStep(trace: seq<Key>, i: nat, cap: nat, b: set<Key>, b': set<Key>)
    requires i < |trace|
  {
    var k, m := trace[i], NextUse(trace, i + 1, trace[i]);
    if k in b then b' == b
    else if |b| < cap then b' == b + {k}
    else
      || (b' == b && |b| == cap && forall x :: x in b ==> NextUse(trace, i + 1, x) < m)
      || exists v :: v in b && Evicts(trace, i, cap, b, v) && b' == b - {v} + {k}
  }

  ghost predicate Evicts(trace: seq<Key>, i: nat, cap: nat, b: set<Key>, v: Key)
    requires i < |trace|
  {
    && |b| == cap && NextUse(trace, i + 1, trace[i]) <= NextUse(trace, i + 1, v)
    && forall x :: x in b ==> NextUse(trace, i + 1, x) <= NextUse(trace, i + 1, v)
  }

  lemma {:induction false} CardinalityOfPart(a: set<Key>, b: set<Key>)
    requires a <= b
    ensures |a| <= |b|
  {
    assert b == a + (b - a);
  }

  /** The requested key is the only one whose next use changes; the others are unaffected. */
  lemma {:induction false} CountBefore(trace: seq<Key>, i: nat, s: set<Key>, t: int)
    requires i < |trace| && i < t
    ensures var k := trace[i];
            |UsedBefore(trace, i, s, t)| == |UsedBefore(trace, i + 1, s - {k}, t)| + if k in s then 1 else 0
  {
    var k := trace[i];
    var rest := UsedBefore(trace, i + 1, s - {k}, t);
    assert UsedBefore(trace, i, s, t) == rest + if k in s then {k} else {};
  }

  lemma {:induction false} CountAfter(trace: seq<Key>, i: nat, s: set<Key>, t: int)
    requires i < |trace|
    ensures var k := trace[i];
            |UsedBefore(trace, i + 1, s, t)| ==
            |UsedBefore(trace, i + 1, s - {k}, t)| + if k in s && NextUse(trace, i + 1, k) < t then 1 else 0
  {
    var k := trace[i];
    var rest := UsedBefore(trace, i + 1, s - {k}, t);
    assert UsedBefore(trace, i + 1, s, t) == rest + if k in s && NextUse(trace, i + 1, k) < t then {k} else {};
  }

  /** The other policy can only lose keys besides the requested one. */
  lemma {:induction false} OtherKeeps(trace: seq<Key>, i: nat, r: set<Key>, r': set<Key>, t: int)
    requires i < |trace| && i < t && r' <= r + {trace[i]}
    ensures var k := trace[i];
            |UsedBefore(trace, i + 1, r', t)| <=
            |UsedBefore(trace, i, r, t)| - (if k in r then 1 else 0)
              + (if k in r' && NextUse(trace, i + 1, k) < t then 1 else 0)
  {
    var k := trace[i];
    CountBefore(trace, i, r, t);
    CountAfter(trace, i, r', t);
    CardinalityOfPart(UsedBefore(trace, i + 1, r' - {k}, t), UsedBefore(trace, i + 1, r - {k}, t));
  }

  /** Either Belady keeps pace with every arrival, or all its slots hold keys needed before t. */
  lemma {:induction false} BeladyKeeps(trace: seq<Key>, i: nat, cap: nat, b: set<Key>, b': set<Key>, t: int)
    requires i < |trace| && i < t && |b| <= cap && BeladyStep(trace, i, cap, b, b')
    ensures var k := trace[i];
            || |UsedBefore(trace, i + 1, b', t)| ==
               |UsedBefore(trace, i, b, t)| - (if k in b then 1 else 0)
                 + (if NextUse(trace, i + 1, k) < t then 1 else 0)
            || |UsedBefore(trace, i + 1, b', t)| == cap
  {
    var k, m := trace[i], NextUse(trace, i + 1, trace[i]);
    CountBefore(trace, i, b, t);
    CountAfter(trace, i, b', t);
    if k in b {
    } else if |b| < cap {
      assert b' - {k} == b - {k};
    } else if b' == b && forall x :: x in b ==> NextUse(trace, i + 1, x) < m {
      if m < t {
        assert UsedBefore(trace, i + 1, b, t) == b;
      }
    } else {
      var v :| v in b && Evicts(trace, i, cap, b, v) && b' == b - {v} + {k};
      EvictionKeeps(trace, i, cap, b, v, t);
    }
  }

  lemma {:induction false} EvictionKeeps(trace: seq<Key>, i: nat, cap: nat, b: set<Key>, v: Key, t: int)
    requires i < |trace| && trace[i] !in b && v in b && Evicts(trace, i, cap, b, v)
    ensures var k := trace[i];
            var b' := b - {v} + {k};
            || |UsedBefore(trace, i + 1, b', t)| == cap
            || UsedBefore(trace, i + 1, b' - {k}, t) == UsedBefore(trace, i + 1, b - {k}, t)
  {
    var k := trace[i];
    var b' := b - {v} + {k};
    if NextUse(trace, i + 1, v) < t {
      assert UsedBefore(trace, i + 1, b', t) == b';
    }
  }

  lemma {:induction false} UsedBeforeBound(trace: seq<Key>, i: nat, s: set<Key>, t: int)
    requires i <= |trace|
    ensures |UsedBefore(trace, i, s, t)| <= |s|
    ensures t <= i ==> UsedBefore(trace, i, s, t) == {}
  {
    CardinalityOfPart(UsedBefore(trace, i, s, t), s);
  }

  /** Before i + 1 only the requested key is needed, so a lone hit of the other policy was prepaid. */
  lemma {:induction false} LoneHitPrepaid(trace: seq<Key>, i: nat, b: set<Key>, hb: int, r: set<Key>, hr: int)
    requires i < |trace| && Ahead(trace, i, b, hb, r, hr)
    ensures var k := trace[i]; (if k in r then 1 else 0) - (if k in b then 1 else 0) <= hb - hr
  {
    var k := trace[i];
    CountBefore(trace, i, r, i + 1);
    CountBefore(trace, i, b, i + 1);
    UsedBeforeBound(trace, i + 1, r - {k}, i + 1);
    UsedBeforeBound(trace, i + 1, b - {k}, i + 1);
    assert Lead(trace, i, b, r, i + 1) <= hb - hr;
  }

  lemma {:induction false} LeadStep(trace: seq<Key>, i: nat, cap: nat, b: set<Key>, b': set<Key>, r: set<Key>,
                                    r': set<Key>, d: int, t: int)
    requires i < |trace| && |b| <= cap && |r'| <= cap && r' <= r + {trace[i]}
    requires BeladyStep(trace, i, cap, b, b') && Lead(trace, i, b, r, t) <= d
    requires var k := trace[i]; 0 <= d + (if k in b then 1 else 0) - (if k in r then 1 else 0)
    ensures var k := trace[i];
            Lead(trace, i + 1, b', r', t) <= d + (if k in b then 1 else 0) - (if k in r then 1 else 0)
  {
    UsedBeforeBound(trace, i + 1, r', t);
    if i < t {
      OtherKeeps(trace, i, r, r', t);
      BeladyKeeps(trace, i, cap, b, b', t);
    }
  }

  /** One request keeps Belady ahead of any other policy. */
  lemma {:induction false} StaysAhead(trace: seq<Key>, i: nat, cap: nat, b: set<Key>, b': set<Key>, hb: int,
                                      r: set<Key>, r': set<Key>, hr: int)
    requires i < |trace| && |b| <= cap && |r'| <= cap && r' <= r + {trace[i]}
    requires BeladyStep(trace, i, cap, b, b') && Ahead(trace, i, b, hb, r, hr)
    ensures var k := trace[i];
            Ahead(trace, i + 1, b', hb + (if k in b then 1 else 0), r', hr + (if k in r then 1 else 0))
  {
    var k, j := trace[i], i + 1;
    LoneHitPrepaid(trace, i, b, hb, r, hr);
    forall t | t <= |trace|
      ensures Lead(trace, j, b', r', t) <= hb - hr + (if k in b then 1 else 0) - (if k in r then 1 else 0)
    {
      LeadStep(trace, i, cap, b, b', r, r', hb - hr, t);
    }
  }

  /** Belady with residents b and h hits after i requests is ahead of every policy. */
  ghost predicate AheadOfAll(trace: seq<Key>, cap: nat, i: nat, b: set<Key>, h: int)
    requires i <= |trace|
  {
    forall run :: IsRun(trace, cap, run) ==> Ahead(trace, i, b, h, run[i], Hits(trace, run, i))
  }

  lemma {:induction false} StaysAheadOfAll(trace: seq<Key>, cap: nat, i: nat, b: set<Key>, b': set<Key>, h: int)
    requires i < |trace| && |b| <= cap && BeladyStep(trace, i, cap, b, b') && AheadOfAll(trace, cap, i, b, h)
    ensures AheadOfAll(trace, cap, i + 1, b', h + if trace[i] in b then 1 else 0)
  {
    forall run | IsRun(trace, cap, run)
      ensures Ahead(trace, i + 1, b', h + (if trace[i] in b then 1 else 0), run[i + 1], Hits(trace, run, i + 1))
    {
      assert OnDemand(trace, run, i);
      StaysAhead(trace, i, cap, b, b', h, run[i], run[i + 1], Hits(trace, run, i));
    }
  }

  lemma {:induction false} AheadAtEnd(trace: seq<Key>, cap: nat, b: set<Key>, h: int, run: seq<set<Key>>)
    requires AheadOfAll(trace, cap, |trace|, b, h)
    requires IsRun(trace, cap, run) && Hits(trace, run, |trace|) == h
    ensures IsOptimal(trace, cap, h)
  {
    forall g | Achievable(trace, cap, g)
      ensures g <= h
    {
      var other :| IsRun(trace, cap, other) && Hits(trace, other, |trace|) == g;
      UsedBeforeBound(trace, |trace|, b, 0);
      UsedBeforeBound(trace, |trace|, other[|trace|], 0);
      assert Lead(trace, |trace|, b, other[|trace|], 0) <= h - g;
    }
  }

  lemma {:induction false} HitsOfPrefix(trace: seq<Key>, run: seq<set<Key>>, longer: seq<set<Key>>, n: nat)
    requires n <= |trace| && n <= |run| && run <= longer
    ensures Hits(trace, run, n) == Hits(trace, longer, n)
  {
    if n > 0 {
      HitsOfPrefix(trace, run, longer, n - 1);
    }
  }

  ghost predicate Tallies(trace: seq<Key>, run: seq<set<Key>>, tally: seq<int>, i: nat)
    requires i < |trace| && i < |run| && i + 1 < |tally|
  {
    tally[i + 1] == tally[i] + if trace[i] in run[i] then 1 else 0
  }

  /** A tally that grows by one exactly at the run's hits is the run's hit count. */
  lemma {:induction false} TallyIsHits(trace: seq<Key>, run: seq<set<Key>>, tally: seq<int>, n: nat)
    requires n <= |trace| < |run| && |tally| == |run| && tally[0] == 0
    requires forall i :: 0 <= i < |trace| ==> Tallies(trace, run, tally, i)
    ensures Hits(trace, run, n) == tally[n]
  {
    if n > 0 {
      TallyIsHits(trace, run, tally, n - 1);
      assert Tallies(trace, run, tally, n - 1);
    }
  }

  /** Request i of a policy described by what it holds and how many hits it has had. */
  ghost predicate PolicyStep(trace: seq<Key>, cap: nat, held: nat -> set<Key>, tally: nat -> int, i: nat)
    requires i < |trace|
  {
    && |held(i)| <= cap && |held(i + 1)| <= cap && held(i + 1) <= held(i) + {trace[i]}
    && tally(i + 1) == tally(i) + if trace[i] in held(i) then 1 else 0
  }

  lemma {:induction false} StepIs(trace: seq<Key>, cap: nat, held: nat -> set<Key>, tally: nat -> int, i: nat,
                                  before: set<Key>, after: set<Key>)
    requires i < |trace| && held(i) == before && held(i + 1) == after
    requires |before| <= cap && |after| <= cap && after <= before + {trace[i]}
    requires tally(i + 1) == tally(i) + if trace[i] in before then 1 else 0
    ensures PolicyStep(trace, cap, held, tally, i)
  {}

  lemma {:induction false} PolicyAchieves(trace: seq<Key>, cap: nat, held: nat -> set<Key>, tally: nat -> int)
    requires held(0) == {} && tally(0) == 0
    requires forall i :: 0 <= i < |trace| ==> PolicyStep(trace, cap, held, tally, i)
    ensures Achievable(trace, cap, tally(|trace|))
  {
    var run := seq(|trace| + 1, i requires 0 <= i <= |trace| => held(i));
    var sums := seq(|trace| + 1, i requires 0 <= i <= |trace| => tally(i));
    forall i | 0 <= i < |trace|
      ensures OnDemand(trace, run, i) && Tallies(trace, run, sums, i)
    {
      assert PolicyStep(trace, cap, held, tally, i);
    }
    forall i | 0 <= i < |run|
      ensures |run[i]| <= cap
    {
      assert 0 < i ==> PolicyStep(trace, cap, held, tally, i - 1);
    }
    TallyIsHits(trace, run, sums, |trace|);
  }

  // ------------------------------------------------------------------ the optimal policy

  /** For every request, the position of the next request for the same key. */
  method NextUses(trace: seq<Key>) returns (nxt: seq<nat>)
    ensures |nxt| == |trace|
    ensures forall i :: 0 <= i < |trace| ==> nxt[i] == NextUseAfter(trace, i)
  {
    var n := |trace|;
    nxt := seq(n, _ => n);
    var last: map<Key, nat> := map[];
    for i := n downto 0
      invariant |nxt| == n
      invariant forall k :: NextUse(trace, i, k) == Or(last, k, n)
      invariant forall j :: i <= j < n ==> nxt[j] == NextUseAfter(trace, j)
    {
      nxt := nxt[i := Or(last, trace[i], n)];
      last := last[trace[i] := i];
    }
  }

  ghost function NextUseAfter(trace: seq<Key>, i: nat): nat
    requires i < |trace|
  {
    NextUse(trace, i + 1, trace[i])
  }

  function Or(m: map<Key, nat>, k: Key, default: nat): nat {
    if k in m then m[k] else default
  }

  method Member<T>(s: set<T>) returns (x: T)
    requires s != {}
    ensures x in s
  {
    x :| x in s;
  }

  /** A resident whose next use is furthest away. */
  method Furthest(resident: map<Key, nat>) returns (victim: Key)
    requires |resident| > 0
    ensures victim in resident
    ensures forall k :: k in resident ==> resident[k] <= resident[victim]
  {
    assert resident.Keys != {};
    victim := Member(resident.Keys);
    var rest := resident.Keys - {victim};
    while rest != {}
      invariant victim in resident && rest <= resident.Keys
      invariant forall k :: k in resident && k !in rest ==> resident[k] <= resident[victim]
      decreases rest
    {
      var k := Member(rest);
      if resident[k] > resident[victim] {
        victim := k;
      }
      rest := rest - {k};
    }
  }

  /** The residents carry their next uses. */
  ghost predicate Tracks(trace: seq<Key>, i: nat, resident: map<Key, nat>)
    requires i <= |trace|
  {
    forall k :: k in resident ==> resident[k] == NextUse(trace, i, k)
  }

  lemma {:induction false} StillTracks(trace: seq<Key>, i: nat, resident: map<Key, nat>)
    requires i < |trace| && Tracks(trace, i, resident)
    ensures Tracks(trace, i + 1, resident - {trace[i]})
  {
    forall k | k in resident && k != trace[i]
      ensures NextUse(trace, i, k) == NextUse(trace, i + 1, k)
    {}
  }

  /** One request of Belady's policy with bypass: k is requested, and next after that. */
  method BeladyServe(ghost trace: seq<Key>, ghost i: nat, cap: nat, resident: map<Key, nat>, k: Key, next: nat)
    returns (after: map<Key, nat>)
    requires cap >= 1 && i < |trace| && k == trace[i] && next == NextUse(trace, i + 1, k)
    requires |resident.Keys| <= cap && Tracks(trace, i, resident)
    ensures Tracks(trace, i + 1, after) && BeladyStep(trace, i, cap, resident.Keys, after.Keys)
  {
    StillTracks(trace, i, resident);
    if k in resident {
      after := resident[k := next];
      assert after.Keys == resident.Keys;
      return;
    }
    assert resident - {k} == resident;
    if |resident.Keys| >= cap {
      after := ReplaceFurthest(trace, i, cap, resident, k, next);
    } else {
      after := resident[k := next];
      assert after.Keys == resident.Keys + {k};
    }
  }

  /** A missed key replaces the resident needed furthest ahead, unless it is needed later still. */
  method ReplaceFurthest(ghost trace: seq<Key>, ghost i: nat, cap: nat, resident: map<Key, nat>, k: Key, next: nat)
    returns (after: map<Key, nat>)
    requires cap >= 1 && i < |trace| && k == trace[i] && next == NextUse(trace, i + 1, k)
    requires k !in resident && |resident.Keys| == cap && Tracks(trace, i + 1, resident)
    ensures Tracks(trace, i + 1, after) && BeladyStep(trace, i, cap, resident.Keys, after.Keys)
  {
    var victim := Furthest(resident);
    if resident[victim] < next {
      return resident;
    }
    assert Evicts(trace, i, cap, resident.Keys, victim);
    after := (resident - {victim})[k := next];
    assert after.Keys == resident.Keys - {victim} + {k};
  }

  /** Belady's policy, with next-use positions as the residents' values. It is optimal: no policy
      with the same number of slots has more hits. */
  method Belady(trace: seq<Key>, cap: nat) returns (hits: nat)
    requires cap >= 1
    ensures IsOptimal(trace, cap, hits)
  {
    var nxt := NextUses(trace);
    var resident: map<Key, nat> := map[];
    hits := 0;
    ghost var run := [{}];
    for i := 0 to |trace|
      invariant |resident.Keys| <= cap && Tracks(trace, i, resident)
      invariant IsRun(trace[..i], cap, run) && run[i] == resident.Keys
      invariant hits == Hits(trace, run, i)
      invariant AheadOfAll(trace, cap, i, resident.Keys, hits)
    {
      var after := BeladyServe(trace, i, cap, resident, trace[i], nxt[i]);
      StepFits(trace, i, cap, resident.Keys, after.Keys);
      StaysAheadOfAll(trace, cap, i, resident.Keys, after.Keys, hits);
      RunExtends(trace, cap, i, run, after.Keys);
      hits := hits + if trace[i] in resident then 1 else 0;
      resident := after;
      run := run + [after.Keys];
    }
    assert trace[..|trace|] == trace;
    AheadAtEnd(trace, cap, resident.Keys, hits, run);
  }

  lemma {:induction false} StepFits(trace: seq<Key>, i: nat, cap: nat, b: set<Key>, b': set<Key>)
    requires i < |trace| && |b| <= cap && BeladyStep(trace, i, cap, b, b')
    ensures |b'| <= cap && b' <= b + {trace[i]}
  {}

  /** One more step of a run on a prefix of the trace. */
  lemma {:induction false} RunExtends(trace: seq<Key>, cap: nat, i: nat, run: seq<set<Key>>, next: set<Key>)
    requires i < |trace| && IsRun(trace[..i], cap, run)
    requires next <= run[i] + {trace[i]} && |next| <= cap
    ensures IsRun(trace[..i + 1], cap, run + [next])
    ensures Hits(trace, run + [next], i + 1) == Hits(trace, run, i) + if trace[i] in run[i] then 1 else 0
  {
    HitsOfPrefix(trace, run, run + [next], i);
    var longer, grown := trace[..i + 1], run + [next];
    forall j | 0 <= j <= i
      ensures OnDemand(longer, grown, j)
    {
      assert j < i ==> OnDemand(trace[..i], run, j);
    }
  }
}
