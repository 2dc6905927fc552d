/** LRU beside a pinned hot set chosen with hindsight, and LRU beside lazily loaded pins. */
module PinnedPolicies {
  import opened CachePolicies
  import opened LruPolicies

  /** The keys among the first n requests. */
  ghost function Requested(trace: seq<Key>, n: nat): set<Key>
    requires n <= |trace|
  {
    if n == 0 then {} else Requested(trace, n - 1) + {trace[n - 1]}
  }

  /** Every key's first request misses under any policy at any size, the optimum included. */
  lemma {:induction false} CompulsoryMisses(trace: seq<Key>, cap: nat, run: seq<set<Key>>, n: nat)
    requires IsRun(trace, cap, run) && n <= |trace|
    ensures run[n] <= Requested(trace, n)
    ensures Hits(trace, run, n) + |Requested(trace, n)| <= n
  {
    if n > 0 {
      CompulsoryMisses(trace, cap, run, n - 1);
      assert OnDemand(trace, run, n - 1);
    }
  }

  // ------------------------------------------------------------------ hindsight pins

  ghost predicate IsHottest(trace: seq<Key>, n: nat, hot: set<Key>) {
    && hot <= Elements(trace)
    && |hot| == (if n <= |Elements(trace)| then n else |Elements(trace)|)
    && forall h, x :: h in hot && x in Elements(trace) - hot ==> multiset(trace)[x] <= multiset(trace)[h]
  }

  /** The n most requested keys; ties are broken arbitrarily. */
  method MostCommon(trace: seq<Key>, n: nat) returns (hot: set<Key>)
    ensures IsHottest(trace, n, hot)
  {
    hot := {};
    var rest := Elements(trace);
    while |hot| < n && rest != {}
      invariant hot + rest == Elements(trace) && hot !! rest && |hot| <= n
      invariant forall h, x :: h in hot && x in rest ==> multiset(trace)[x] <= multiset(trace)[h]
      decreases rest
    {
      var k := MostRequested(trace, rest);
      hot, rest := hot + {k}, rest - {k};
    }
    assert |Elements(trace)| == |hot| + |rest|;
    assert Elements(trace) - hot == rest;
  }

  method MostRequested(trace: seq<Key>, from: set<Key>) returns (best: Key)
    requires from != {}
    ensures best in from && forall x :: x in from ==> multiset(trace)[x] <= multiset(trace)[best]
  {
    best := Member(from);
    var rest := from - {best};
    while rest != {}
      invariant best in from && rest <= from
      invariant forall x :: x in from - rest ==> multiset(trace)[x] <= multiset(trace)[best]
      decreases rest
    {
      var k := Member(rest);
      if multiset(trace)[k] > multiset(trace)[best] {
        best := k;
      }
      rest := rest - {k};
    }
  }

  /** The requests that are not pinned, in order. */
  ghost function Cold(trace: seq<Key>, hot: set<Key>, n: nat): seq<Key>
    requires n <= |trace|
  {
    if n == 0 then []
    else Cold(trace, hot, n - 1) + if trace[n - 1] in hot then [] else [trace[n - 1]]
  }

  ghost function HotRequests(trace: seq<Key>, hot: set<Key>, n: nat): nat
    requires n <= |trace|
  {
    if n == 0 then 0 else HotRequests(trace, hot, n - 1) + if trace[n - 1] in hot then 1 else 0
  }

  /** Every pinned key pays its first request, and the rest is plain LRU in the remaining slots. */
  ghost function PinnedHits(trace: seq<Key>, hot: set<Key>, room: nat, n: nat): int
    requires room >= 1 && n <= |trace|
  {
    var cold := Cold(trace, hot, n);
    HotRequests(trace, hot, n) - |hot * Requested(trace, n)| + LruHits(cold, room, |cold|)
  }

  lemma {:induction false} LruOfPrefix(a: seq<Key>, b: seq<Key>, cap: nat, n: nat)
    requires cap >= 1 && n <= |a| && a <= b
    ensures LruOrder(a, cap, n) == LruOrder(b, cap, n) && LruHits(a, cap, n) == LruHits(b, cap, n)
  {
    if n > 0 {
      LruOfPrefix(a, b, cap, n - 1);
    }
  }

  ghost function ColdOrder(trace: seq<Key>, hot: set<Key>, room: nat, n: nat): seq<Key>
    requires room >= 1 && n <= |trace|
  {
    LruOrder(Cold(trace, hot, n), room, |Cold(trace, hot, n)|)
  }

  lemma {:induction false} OneMoreRequest(c: seq<Key>, room: nat, k: Key)
    requires room >= 1
    ensures LruOrder(c + [k], room, |c| + 1) == LruStep(LruOrder(c, room, |c|), room, k)
    ensures LruHits(c + [k], room, |c| + 1) == LruHits(c, room, |c|) + if k in LruOrder(c, room, |c|) then 1 else 0
  {
    LruOfPrefix(c, c + [k], room, |c|);
  }

  lemma {:induction false} ColdNext(trace: seq<Key>, hot: set<Key>, n: nat)
    requires n < |trace|
    ensures Cold(trace, hot, n + 1) == if trace[n] in hot then Cold(trace, hot, n) else Cold(trace, hot, n) + [trace[n]]
  {}

  lemma {:induction false} ColdStep(trace: seq<Key>, hot: set<Key>, room: nat, n: nat)
    requires room >= 1 && n < |trace|
    ensures var k, c, c' := trace[n], Cold(trace, hot, n), Cold(trace, hot, n + 1);
            if k in hot then c' == c
            else
              && ColdOrder(trace, hot, room, n + 1) == LruStep(ColdOrder(trace, hot, room, n), room, k)
              && LruHits(c', room, |c'|) ==
                 LruHits(c, room, |c|) + if k in ColdOrder(trace, hot, room, n) then 1 else 0
  {
    ColdNext(trace, hot, n);
    if trace[n] !in hot {
      OneMoreRequest(Cold(trace, hot, n), room, trace[n]);
    }
  }

  lemma {:induction false} PinnedStep(trace: seq<Key>, hot: set<Key>, room: nat, n: nat)
    requires room >= 1 && n < |trace|
    ensures var k := trace[n];
            PinnedHits(trace, hot, room, n + 1) == PinnedHits(trace, hot, room, n) +
            if k in hot then (if k in Requested(trace, n) then 1 else 0)
            else if k in ColdOrder(trace, hot, room, n) then 1 else 0
  {
    var k := trace[n];
    ColdStep(trace, hot, room, n);
    HotRequestsStep(trace, hot, n);
    if k in hot && k !in Requested(trace, n) {
      assert hot * Requested(trace, n + 1) == hot * Requested(trace, n) + {k};
    } else {
      assert hot * Requested(trace, n + 1) == hot * Requested(trace, n);
    }
  }

  lemma {:induction false} HotRequestsStep(trace: seq<Key>, hot: set<Key>, n: nat)
    requires n < |trace|
    ensures HotRequests(trace, hot, n + 1) == HotRequests(trace, hot, n) + if trace[n] in hot then 1 else 0
  {}

  /** One request: whether it hit, the pins loaded and the order of the others. */
  method PinnedServe(pinned: set<Key>, room: nat, loaded: set<Key>, seen: seq<Key>, k: Key)
    returns (hit: bool, loaded': set<Key>, seen': seq<Key>)
    requires room >= 1
    ensures hit <==> if k in pinned then k in loaded else k in seen
    ensures loaded' == if k in pinned then loaded + {k} else loaded
    ensures seen' == if k in pinned then seen else LruStep(seen, room, k)
  {
    hit, loaded', seen' := false, loaded, seen;
    if k in pinned {
      if k in loaded {
        hit := true;
      } else {
        loaded' := loaded + {k};
      }
      assert loaded' == loaded + {k};
    } else {
      hit, seen' := LruServe(seen, room, k);
    }
  }

  /** One request in its place in the trace. */
  method PinnedAdvance(trace: seq<Key>, pinned: set<Key>, room: nat, i: nat, loaded: set<Key>, seen: seq<Key>)
    returns (hit: bool, loaded': set<Key>, seen': seq<Key>)
    requires room >= 1 && i < |trace|
    requires loaded == pinned * Requested(trace, i) && seen == ColdOrder(trace, pinned, room, i)
    ensures loaded' == pinned * Requested(trace, i + 1) && seen' == ColdOrder(trace, pinned, room, i + 1)
    ensures PinnedHits(trace, pinned, room, i + 1) == PinnedHits(trace, pinned, room, i) + if hit then 1 else 0
  {
    hit, loaded', seen' := PinnedServe(pinned, room, loaded, seen, trace[i]);
    LoadedStep(pinned, Requested(trace, i), trace[i]);
    ColdStep(trace, pinned, room, i);
    PinnedStep(trace, pinned, room, i);
  }

  method PinnedReplay(trace: seq<Key>, pinned: set<Key>, room: nat) returns (hits: int)
    requires room >= 1
    ensures hits == PinnedHits(trace, pinned, room, |trace|)
  {
    var loaded: set<Key> := {};
    var seen: seq<Key> := [];
    hits := 0;
    PinnedStart(trace, pinned, room);
    for i := 0 to |trace|
      invariant loaded == pinned * Requested(trace, i) && seen == ColdOrder(trace, pinned, room, i)
      invariant hits == PinnedHits(trace, pinned, room, i)
    {
      var hit;
      hit, loaded, seen := PinnedAdvance(trace, pinned, room, i, loaded, seen);
      hits := if hit then hits + 1 else hits;
    }
  }

  method PinnedRun(trace: seq<Key>, pinned: set<Key>, room: nat) returns (hits: int)
    requires room >= 1
    ensures hits == PinnedHits(trace, pinned, room, |trace|)
    ensures exists held :: HoldsPinned(trace, room, pinned, held) && hits == Hits(trace, held, |trace|)
  {
    hits := PinnedReplay(trace, pinned, room);
    ghost var held := PinnedHolds(trace, pinned, room);
  }

  method PinnedLru(trace: seq<Key>, cap: nat, npin: int) returns (hits: int, ghost hot: set<Key>)
    requires cap >= 1
    ensures var pins := if npin >= cap then cap - 1 else npin;
            IsHottest(trace, if pins < 0 then 0 else pins, hot)
    ensures |hot| < cap && hits == PinnedHits(trace, hot, cap - |hot|, |trace|)
    ensures exists held :: HoldsPinned(trace, cap - |hot|, hot, held) && hits == Hits(trace, held, |trace|)
  {
    var pins := if npin >= cap then cap - 1 else npin;
    var pinned := MostCommon(trace, if pins < 0 then 0 else pins);
    hot := pinned;
    var room := if cap - |pinned| > 1 then cap - |pinned| else 1;
    hits := PinnedRun(trace, pinned, room);
  }

  lemma {:induction false} LoadedStep(pinned: set<Key>, requested: set<Key>, k: Key)
    ensures pinned * (requested + {k}) == if k in pinned then pinned * requested + {k} else pinned * requested
    ensures k in pinned ==> (k in pinned * requested <==> k in requested)
  {}

  lemma {:induction false} ColdKeysAreCold(trace: seq<Key>, hot: set<Key>, n: nat, k: Key)
    requires n <= |trace| && k in hot
    ensures k !in Cold(trace, hot, n)
  {
    if n > 0 {
      ColdKeysAreCold(trace, hot, n - 1, k);
    }
  }

  ghost function PinnedSet(trace: seq<Key>, hot: set<Key>, room: nat, n: nat): set<Key>
    requires room >= 1 && n <= |trace|
  {
    hot * Requested(trace, n) + Elements(ColdOrder(trace, hot, room, n))
  }

  lemma {:induction false} PinnedSetStep(trace: seq<Key>, hot: set<Key>, room: nat, n: nat)
    requires room >= 1 && n < |trace|
    ensures |PinnedSet(trace, hot, room, n)| <= |hot| + room
    ensures PinnedSet(trace, hot, room, n + 1) <= PinnedSet(trace, hot, room, n) + {trace[n]}
    ensures PinnedHits(trace, hot, room, n + 1) ==
            PinnedHits(trace, hot, room, n) + if trace[n] in PinnedSet(trace, hot, room, n) then 1 else 0
  {
    PinnedSetFits(trace, hot, room, n);
    ColdStep(trace, hot, room, n);
    PinnedStep(trace, hot, room, n);
    var k, order := trace[n], ColdOrder(trace, hot, room, n);
    InElements(order, k);
    if k in hot {
      var cold := Cold(trace, hot, n);
      ColdKeysAreCold(trace, hot, n, k);
      assert cold[..|cold|] == cold;
      FirstRequestMisses(cold, room, |cold|, k);
    } else {
      StepBringsOnlyRequest(order, room, k);
    }
  }

  lemma {:induction false} PinnedSetFits(trace: seq<Key>, hot: set<Key>, room: nat, n: nat)
    requires room >= 1 && n <= |trace|
    ensures |PinnedSet(trace, hot, room, n)| <= |hot| + room
  {
    var order := ColdOrder(trace, hot, room, n);
    LruFits(Cold(trace, hot, n), room, |Cold(trace, hot, n)|);
    CardinalityOfPart(hot * Requested(trace, n), hot);
    UnionSize(hot * Requested(trace, n), Elements(order));
  }

  lemma {:induction false} UnionSize(a: set<Key>, b: set<Key>)
    ensures |a + b| <= |a| + |b|
  {
    CardinalityOfPart(b - a, b);
    assert a + b == a + (b - a);
  }

  lemma {:induction false} PinnedStart(trace: seq<Key>, hot: set<Key>, room: nat)
    requires room >= 1
    ensures PinnedHits(trace, hot, room, 0) == 0 && PinnedSet(trace, hot, room, 0) == {}
    ensures ColdOrder(trace, hot, room, 0) == []
  {
    assert hot * Requested(trace, 0) == {};
    assert Cold(trace, hot, 0) == [];
    assert LruOrder([], room, 0) == [];
  }

  ghost function PinnedHeld(trace: seq<Key>, hot: set<Key>, room: nat): nat -> set<Key>
    requires room >= 1
  {
    (i: nat) => if i <= |trace| then PinnedSet(trace, hot, room, i) else {}
  }

  ghost function PinnedTally(trace: seq<Key>, hot: set<Key>, room: nat): nat -> int
    requires room >= 1
  {
    (i: nat) => if i <= |trace| then PinnedHits(trace, hot, room, i) else 0
  }

  lemma {:induction false} PinnedStepAt(trace: seq<Key>, hot: set<Key>, cap: nat, room: nat, held: nat -> set<Key>,
                                        tally: nat -> int, i: nat)
    requires room >= 1 && cap == |hot| + room && i < |trace|
    requires held == PinnedHeld(trace, hot, room) && tally == PinnedTally(trace, hot, room)
    ensures PolicyStep(trace, cap, held, tally, i)
  {
    PinnedSetStep(trace, hot, room, i);
    PinnedSetFits(trace, hot, room, i + 1);
    StepIs(trace, cap, held, tally, i, PinnedSet(trace, hot, room, i), PinnedSet(trace, hot, room, i + 1));
  }

  lemma {:induction false} PinnedIsPolicy(trace: seq<Key>, hot: set<Key>, cap: nat)
    requires |hot| < cap
    ensures Achievable(trace, cap, PinnedHits(trace, hot, cap - |hot|, |trace|))
  {
    var room := cap - |hot|;
    var held, tally := PinnedHeld(trace, hot, room), PinnedTally(trace, hot, room);
    forall i | 0 <= i < |trace|
      ensures PolicyStep(trace, cap, held, tally, i)
    {
      PinnedStepAt(trace, hot, cap, room, held, tally, i);
    }
    PinnedStart(trace, hot, room);
    PolicyAchieves(trace, cap, held, tally);
  }

  /** Even with the hot set chosen from the trace itself, the offline optimum is a ceiling. */
  lemma {:induction false} PinnedIsBounded(trace: seq<Key>, hot: set<Key>, cap: nat, best: int)
    requires |hot| < cap && IsOptimal(trace, cap, best)
    ensures PinnedHits(trace, hot, cap - |hot|, |trace|) <= best
  {
    PinnedIsPolicy(trace, hot, cap);
  }

  // ------------------------------------------------------------------ lazily loaded pins

  datatype Residents = Residents(loaded: set<Key>, cold: seq<Key>)

  ghost function ReplayStep(s: Residents, capacity: nat, hot: set<Key>, k: Key): Residents {
    if k in s.loaded then s
    else if k in s.cold then s.(cold := Without(s.cold, k) + [k])
    else
      var kept := if |s.cold| + |s.loaded| == capacity && s.cold != [] then s.cold[1..] else s.cold;
      if k in hot then Residents(s.loaded + {k}, kept) else Residents(s.loaded, kept + [k])
  }

  ghost function ReplayState(keys: seq<Key>, capacity: nat, hot: set<Key>, n: nat): Residents
    requires n <= |keys|
  {
    if n == 0 then Residents({}, [])
        else ReplayStep(ReplayState(keys, capacity, hot, n - 1), capacity, hot, keys[n - 1])
  }

  ghost predicate Holds(s: Residents, k: Key) {
    k in s.loaded || k in s.cold
  }

  ghost function ReplayHits(keys: seq<Key>, capacity: nat, hot: set<Key>, n: nat): nat
    requires n <= |keys|
  {
    if n == 0 then 0
    else ReplayHits(keys, capacity, hot, n - 1) + if Holds(ReplayState(keys, capacity, hot, n - 1), keys[n - 1])
        then 1 else 0
  }

  lemma {:induction false} ReplayNext(keys: seq<Key>, capacity: nat, hot: set<Key>, n: nat)
    requires n < |keys|
    ensures var s := ReplayState(keys, capacity, hot, n);
            && ReplayState(keys, capacity, hot, n + 1) == ReplayStep(s, capacity, hot, keys[n])
            && ReplayHits(keys, capacity, hot, n + 1) ==
               ReplayHits(keys, capacity, hot, n) + if Holds(s, keys[n]) then 1 else 0
  {}

  const EXPERT_BYTES := 17_547_264

  datatype Replay = InvalidCapacity | Report(requests: nat, reuses: nat, loads: nat, payloadBytes: nat)

  ghost predicate Fits(s: Residents, capacity: nat, hot: set<Key>) {
    && s.loaded <= hot && |s.loaded| <= |hot| && Distinct(s.cold)
    && (forall k :: k in s.cold ==> k !in hot)
    && |s.cold| + |s.loaded| <= capacity
  }

  lemma {:induction false} StateFits(keys: seq<Key>, capacity: nat, hot: set<Key>, n: nat)
    requires |hot| < capacity && n <= |keys|
    ensures Fits(ReplayState(keys, capacity, hot, n), capacity, hot)
  {
    if n > 0 {
      StateFits(keys, capacity, hot, n - 1);
      StepFitsToo(ReplayState(keys, capacity, hot, n - 1), capacity, hot, keys[n - 1]);
    }
  }

  lemma {:induction false} StepFitsToo(s: Residents, capacity: nat, hot: set<Key>, k: Key)
    requires |hot| < capacity && Fits(s, capacity, hot)
    ensures Fits(ReplayStep(s, capacity, hot, k), capacity, hot)
  {
    var t := ReplayStep(s, capacity, hot, k);
    CardinalityOfPart(t.loaded, hot);
    WithoutIsRemoval(s.cold, k);
    forall x | x in Without(s.cold, k) ensures x in s.cold && x != k {
      assert x in Elements(Without(s.cold, k));
    }
  }

  method ReplayTrace(keys: seq<Key>, capacity: int, hot: set<Key>) returns (report: Replay)
    ensures capacity < 1 || |hot| >= capacity <==> report == InvalidCapacity
    ensures report != InvalidCapacity ==>
      && report.requests == |keys|
      && report.reuses == ReplayHits(keys, capacity, hot, |keys|)
      && report.loads == |keys| - report.reuses
      && report.payloadBytes == report.loads * EXPERT_BYTES
    ensures report != InvalidCapacity ==>
              exists held :: HoldsNewest(keys, capacity, hot, held) && report.reuses == Hits(keys, held, |keys|)
  {
    if capacity < 1 || |hot| >= capacity {
      return InvalidCapacity;
    }
    var loaded: set<Key> := {};
    var cold: seq<Key> := [];
    var hits: nat := 0;
    for i := 0 to |keys|
      invariant Residents(loaded, cold) == ReplayState(keys, capacity, hot, i)
      invariant hits == ReplayHits(keys, capacity, hot, i) <= i
    {
      var key := keys[i];
      StateFits(keys, capacity, hot, i);
      ReplayNext(keys, capacity, hot, i);
      if key in loaded {
        hits := hits + 1;
      } else if key in cold {
        hits := hits + 1;
        cold := Without(cold, key) + [key];
      } else {
        if |cold| + |loaded| == capacity {
          cold := cold[1..];
        }
        if key in hot {
          loaded := loaded + {key};
        } else {
          cold := cold + [key];
        }
      }
    }
    ghost var held := ReplayHolds(keys, capacity, hot);
    report := Report(|keys|, hits, |keys| - hits, (|keys| - hits) * EXPERT_BYTES);
  }

  ghost function Held(s: Residents): set<Key> {
    s.loaded + Elements(s.cold)
  }

  lemma {:induction false} HeldStep(s: Residents, capacity: nat, hot: set<Key>, k: Key)
    requires |hot| < capacity && Fits(s, capacity, hot)
    ensures Held(ReplayStep(s, capacity, hot, k)) <= Held(s) + {k}
    ensures k in Held(s) <==> Holds(s, k)
    ensures |Held(s)| == |s.loaded| + |s.cold|
  {
    DistinctSize(s.cold);
    assert s.loaded !! Elements(s.cold);
    var t := ReplayStep(s, capacity, hot, k);
    forall x | x in Held(t) && x != k
      ensures x in Held(s)
    {
      if x in t.cold && k in s.cold && k !in s.loaded {
        WithoutShrinks(s.cold, k, x);
      }
    }
  }

  ghost function ReplayHeld(keys: seq<Key>, capacity: nat, hot: set<Key>): nat -> set<Key> {
    (i: nat) => if i <= |keys| then Held(ReplayState(keys, capacity, hot, i)) else {}
  }

  ghost function ReplayTally(keys: seq<Key>, capacity: nat, hot: set<Key>): nat -> int {
    (i: nat) => if i <= |keys| then ReplayHits(keys, capacity, hot, i) else 0
  }

  lemma {:induction false} ReplayHeldStep(keys: seq<Key>, capacity: nat, hot: set<Key>, i: nat)
    requires |hot| < capacity && i < |keys|
    ensures var before, after := Held(ReplayState(keys, capacity, hot, i)),
            Held(ReplayState(keys, capacity, hot, i + 1));
            && |before| <= capacity && |after| <= capacity && after <= before + {keys[i]}
            && ReplayHits(keys, capacity, hot, i + 1) ==
               ReplayHits(keys, capacity, hot, i) + if keys[i] in before then 1 else 0
  {
    var s := ReplayState(keys, capacity, hot, i);
    StateFits(keys, capacity, hot, i);
    StepFitsToo(s, capacity, hot, keys[i]);
    HeldStep(s, capacity, hot, keys[i]);
    HeldStep(ReplayStep(s, capacity, hot, keys[i]), capacity, hot, keys[i]);
    ReplayNext(keys, capacity, hot, i);
  }

  lemma {:induction false} ReplayHeldAt(keys: seq<Key>, capacity: nat, hot: set<Key>, i: nat)
    requires i <= |keys|
    ensures ReplayHeld(keys, capacity, hot)(i) == Held(ReplayState(keys, capacity, hot, i))
    ensures ReplayTally(keys, capacity, hot)(i) == ReplayHits(keys, capacity, hot, i)
  {}

  lemma {:induction false} ReplayStepAt(keys: seq<Key>, capacity: nat, hot: set<Key>, held: nat -> set<Key>,
                                        tally: nat -> int, i: nat)
    requires |hot| < capacity && i < |keys|
    requires held == ReplayHeld(keys, capacity, hot) && tally == ReplayTally(keys, capacity, hot)
    ensures PolicyStep(keys, capacity, held, tally, i)
  {
    ReplayHeldStep(keys, capacity, hot, i);
    ReplayHeldAt(keys, capacity, hot, i);
    ReplayHeldAt(keys, capacity, hot, i + 1);
    StepIs(keys, capacity, held, tally, i, held(i), held(i + 1));
  }

  lemma {:induction false} ReplayIsPolicy(keys: seq<Key>, capacity: nat, hot: set<Key>)
    requires |hot| < capacity
    ensures Achievable(keys, capacity, ReplayHits(keys, capacity, hot, |keys|))
  {
    var held, tally := ReplayHeld(keys, capacity, hot), ReplayTally(keys, capacity, hot);
    forall i | 0 <= i < |keys|
      ensures PolicyStep(keys, capacity, held, tally, i)
    {
      ReplayStepAt(keys, capacity, hot, held, tally, i);
    }
    PolicyAchieves(keys, capacity, held, tally);
  }

  /** The offline optimum is a ceiling for the lazy-pin replay at the same capacity. */
  lemma {:induction false} ReplayIsBounded(keys: seq<Key>, capacity: nat, hot: set<Key>, best: int)
    requires |hot| < capacity && IsOptimal(keys, capacity, best)
    ensures ReplayHits(keys, capacity, hot, |keys|) <= best
  {
    ReplayIsPolicy(keys, capacity, hot);
  }

  ghost function Size(s: Residents): nat {
    |s.loaded| + |s.cold|
  }

  lemma {:induction false} ReplayGrows(s: Residents, capacity: nat, hot: set<Key>, k: Key)
    requires |hot| < capacity && Fits(s, capacity, hot)
    ensures Size(ReplayStep(s, capacity, hot, k)) == if Holds(s, k) || Size(s) == capacity then Size(s) else Size(s) + 1
  {
    WithoutLength(s.cold, k);
  }

  /** Unused pins reserve nothing: the cache is full as soon as enough keys were requested. */
  lemma {:induction false} ReplayFillsUp(keys: seq<Key>, capacity: nat, hot: set<Key>, n: nat)
    requires |hot| < capacity && n <= |keys|
    ensures Held(ReplayState(keys, capacity, hot, n)) <= Requested(keys, n)
    ensures var distinct := |Requested(keys, n)|;
            Size(ReplayState(keys, capacity, hot, n)) == if distinct <= capacity then distinct else capacity
  {
    if n > 0 {
      var s, k, r := ReplayState(keys, capacity, hot, n - 1), keys[n - 1], Requested(keys, n - 1);
      ReplayFillsUp(keys, capacity, hot, n - 1);
      StateFits(keys, capacity, hot, n - 1);
      ReplayFillsMore(s, capacity, hot, k, r);
      assert ReplayState(keys, capacity, hot, n) == ReplayStep(s, capacity, hot, k);
      assert Requested(keys, n) == r + {k};
    }
  }

  lemma {:induction false} ReplayFillsMore(s: Residents, capacity: nat, hot: set<Key>, k: Key, r: set<Key>)
    requires |hot| < capacity && Fits(s, capacity, hot) && Held(s) <= r
    requires Size(s) == if |r| <= capacity then |r| else capacity
    ensures Held(ReplayStep(s, capacity, hot, k)) <= r + {k}
    ensures Size(ReplayStep(s, capacity, hot, k)) == if |r + {k}| <= capacity then |r + {k}| else capacity
  {
    HeldStep(s, capacity, hot, k);
    ReplayGrows(s, capacity, hot, k);
    OneMore(Held(s), r, k, capacity);
  }

  lemma {:induction false} OneMore(held: set<Key>, r: set<Key>, k: Key, capacity: nat)
    requires held <= r && |held| == if |r| <= capacity then |r| else capacity
    ensures |r + {k}| == |r| + if k in r then 0 else 1
    ensures |r| <= capacity ==> (k in r <==> k in held)
  {
    if |r| <= capacity {
      SameSize(held, r);
    }
    assert k in r ==> r + {k} == r;
  }

  lemma {:induction false} SameSize(a: set<Key>, b: set<Key>)
    requires a <= b && |a| == |b|
    ensures a == b
  {
    assert b == a + (b - a);
  }

  // ------------------------------------------------------------------ what the replay keeps

  /** Where a key was last requested, or -1. */
  ghost function LastUse(keys: seq<Key>, n: nat, k: Key): (i: int)
    requires n <= |keys|
    ensures -1 <= i < n && (i >= 0 ==> keys[i] == k) && forall j :: i < j < n ==> keys[j] != k
  {
    if n == 0 then -1 else if keys[n - 1] == k then n - 1 else LastUse(keys, n - 1, k)
  }

  /** After every request for b there is one for a. */
  ghost predicate UsedLater(keys: seq<Key>, n: nat, a: Key, b: Key)
    requires n <= |keys|
  {
    forall j :: 0 <= j < n && keys[j] == b ==> exists i :: j < i < n && keys[i] == a
  }

  /** The cold residents in the order of their last use, all of them used later than any cold key pushed out. */
  ghost predicate ColdInOrder(keys: seq<Key>, hot: set<Key>, n: nat, cold: seq<Key>)
    requires n <= |keys|
  {
    && (forall p, q :: 0 <= p < q < |cold| ==> LastUse(keys, n, cold[p]) < LastUse(keys, n, cold[q]))
    && (forall p :: 0 <= p < |cold| ==> LastUse(keys, n, cold[p]) >= 0)
    && forall b, p :: b !in hot && b !in cold && 0 <= p < |cold| ==> LastUse(keys, n, b) < LastUse(keys, n, cold[p])
  }

  lemma {:induction false} LastUseNext(keys: seq<Key>, n: nat, k: Key)
    requires n < |keys|
    ensures LastUse(keys, n + 1, k) == if keys[n] == k then n else LastUse(keys, n, k)
  {}

  /** Part of the order, without a key that is requested now or with its oldest entry gone. */
  ghost predicate IsPart(cold: seq<Key>, rest: seq<Key>, at: seq<nat>) {
    && |at| == |rest| && (forall p, q :: 0 <= p < q < |at| ==> at[p] < at[q])
    && forall p :: 0 <= p < |at| ==> at[p] < |cold| && rest[p] == cold[at[p]]
  }

  lemma {:induction false} WithoutIsPart(cold: seq<Key>, k: Key) returns (at: seq<nat>)
    ensures IsPart(cold, Without(cold, k), at)
  {
    at := [];
    if cold != [] && cold[0] == k {
      at := BackIsPart(cold);
    } else if cold != [] {
      var more := WithoutIsPart(cold[1..], k);
      at := FrontIsPart(cold, Without(cold[1..], k), more);
    }
  }

  lemma {:induction false} BackIsPart(cold: seq<Key>) returns (at: seq<nat>)
    requires cold != []
    ensures IsPart(cold, cold[1..], at)
  {
    at := seq(|cold| - 1, i requires 0 <= i < |cold| - 1 => i + 1);
  }

  lemma {:induction false} FrontIsPart(cold: seq<Key>, rest: seq<Key>, more: seq<nat>) returns (at: seq<nat>)
    requires cold != [] && IsPart(cold[1..], rest, more)
    ensures IsPart(cold, [cold[0]] + rest, at)
  {
    at := seq(|rest| + 1, i requires 0 <= i < |rest| + 1 => if i == 0 then 0 else more[i - 1] + 1);
    forall p | 0 <= p < |at|
      ensures at[p] < |cold| && ([cold[0]] + rest)[p] == cold[at[p]]
    {
      assert p > 0 ==> rest[p - 1] == cold[1..][more[p - 1]];
    }
  }

  /** A request changes one key's last use: the others keep their order. */
  lemma {:induction false} PartInOrder(keys: seq<Key>, hot: set<Key>, n: nat, cold: seq<Key>, rest: seq<Key>,
                                       at: seq<nat>)
    requires n < |keys| && ColdInOrder(keys, hot, n, cold) && IsPart(cold, rest, at) && keys[n] !in rest
    ensures forall p, q :: 0 <= p < q < |rest| ==> LastUse(keys, n + 1, rest[p]) < LastUse(keys, n + 1, rest[q])
    ensures forall p :: 0 <= p < |rest| ==> 0 <= LastUse(keys, n + 1, rest[p]) < n
  {
    forall p | 0 <= p < |rest|
      ensures LastUse(keys, n + 1, rest[p]) == LastUse(keys, n, cold[at[p]])
    {
      LastUseNext(keys, n, rest[p]);
    }
  }

  lemma {:induction false} PushedOut(keys: seq<Key>, hot: set<Key>, n: nat, cold: seq<Key>, rest: seq<Key>,
                                     at: seq<nat>, b: Key)
    requires n < |keys| && ColdInOrder(keys, hot, n, cold) && IsPart(cold, rest, at) && keys[n] !in rest
    requires b !in hot && b != keys[n] && (b !in cold || (cold != [] && b == cold[0] && rest == cold[1..]))
    ensures forall p :: 0 <= p < |rest| ==> LastUse(keys, n + 1, b) < LastUse(keys, n + 1, rest[p])
  {
    LastUseNext(keys, n, b);
    forall p | 0 <= p < |rest|
      ensures LastUse(keys, n + 1, b) < LastUse(keys, n + 1, rest[p])
    {
      LastUseNext(keys, n, rest[p]);
      if b in cold {
        assert rest[p] == cold[p + 1];
      }
    }
  }

  /** What is left of the order once k is requested: nothing but k or the oldest entry is gone. */
  ghost predicate LeavesRest(cold: seq<Key>, rest: seq<Key>, k: Key) {
    && k !in rest && (forall b :: b in rest ==> b in cold)
    && forall b :: b in cold && b !in rest && b != k ==> b == cold[0] && rest == cold[1..]
  }

  lemma {:induction false} RestInOrder(keys: seq<Key>, hot: set<Key>, n: nat, cold: seq<Key>, rest: seq<Key>,
                                       at: seq<nat>, next: seq<Key>)
    requires n < |keys| && ColdInOrder(keys, hot, n, cold) && IsPart(cold, rest, at)
    requires LeavesRest(cold, rest, keys[n])
    requires next == if keys[n] in hot then rest else rest + [keys[n]]
    ensures ColdInOrder(keys, hot, n + 1, next)
  {
    PartInOrder(keys, hot, n, cold, rest, at);
    LastUseNext(keys, n, keys[n]);
    forall b, p | b !in hot && b !in next && 0 <= p < |next|
      ensures LastUse(keys, n + 1, b) < LastUse(keys, n + 1, next[p])
    {
      if p < |rest| {
        PushedOut(keys, hot, n, cold, rest, at, b);
        assert next[p] == rest[p];
      } else {
        assert next[p] == keys[n];
        LastUseNext(keys, n, b);
      }
    }
  }

  lemma {:induction false} SameIsPart(cold: seq<Key>) returns (at: seq<nat>)
    ensures IsPart(cold, cold, at)
  {
    at := seq(|cold|, i requires 0 <= i < |cold| => i);
  }

  lemma {:induction false} WithoutLeaves(cold: seq<Key>, k: Key)
    requires Distinct(cold)
    ensures LeavesRest(cold, Without(cold, k), k)
  {
    WithoutIsRemoval(cold, k);
    forall b
      ensures b in Without(cold, k) <==> b in cold && b != k
    {
      assert b in Elements(Without(cold, k)) <==> b in Elements(cold) - {k};
    }
  }

  lemma {:induction false} StepKeepsOrder(keys: seq<Key>, capacity: nat, hot: set<Key>, n: nat, next: nat,
                                          s: Residents)
    requires |hot| < capacity && n < next == n + 1 <= |keys| && Fits(s, capacity, hot)
    requires ColdInOrder(keys, hot, n, s.cold)
    ensures ColdInOrder(keys, hot, next, ReplayStep(s, capacity, hot, keys[n]).cold)
  {
    var k, t := keys[n], ReplayStep(s, capacity, hot, keys[n]);
    if k in s.loaded {
      var at := SameIsPart(s.cold);
      RestInOrder(keys, hot, n, s.cold, s.cold, at, t.cold);
    } else if k in s.cold {
      var at := WithoutIsPart(s.cold, k);
      WithoutLeaves(s.cold, k);
      RestInOrder(keys, hot, n, s.cold, Without(s.cold, k), at, t.cold);
    } else if |s.cold| + |s.loaded| == capacity && s.cold != [] {
      var at := BackIsPart(s.cold);
      RestInOrder(keys, hot, n, s.cold, s.cold[1..], at, t.cold);
    } else {
      var at := SameIsPart(s.cold);
      RestInOrder(keys, hot, n, s.cold, s.cold, at, t.cold);
    }
  }

  lemma {:induction false} NextInOrder(keys: seq<Key>, capacity: nat, hot: set<Key>, n: nat, next: nat)
    requires |hot| < capacity && n < next == n + 1 <= |keys|
    requires ColdInOrder(keys, hot, n, ReplayState(keys, capacity, hot, n).cold)
    ensures ColdInOrder(keys, hot, next, ReplayState(keys, capacity, hot, next).cold)
  {
    var s := ReplayState(keys, capacity, hot, n);
    StateFits(keys, capacity, hot, n);
    StepKeepsOrder(keys, capacity, hot, n, next, s);
    ReplayNext(keys, capacity, hot, n);
  }

  lemma {:induction false} ReplayInOrder(keys: seq<Key>, capacity: nat, hot: set<Key>, n: nat)
    requires |hot| < capacity && n <= |keys|
    ensures ColdInOrder(keys, hot, n, ReplayState(keys, capacity, hot, n).cold)
  {
    if n > 0 {
      ReplayInOrder(keys, capacity, hot, n - 1);
      NextInOrder(keys, capacity, hot, n - 1, n);
    }
  }

  lemma {:induction false} ReplayLoads(keys: seq<Key>, capacity: nat, hot: set<Key>, n: nat)
    requires |hot| < capacity && n <= |keys|
    ensures ReplayState(keys, capacity, hot, n).loaded == hot * Requested(keys, n)
  {
    if n > 0 {
      var s, k := ReplayState(keys, capacity, hot, n - 1), keys[n - 1];
      ReplayLoads(keys, capacity, hot, n - 1);
      StateFits(keys, capacity, hot, n - 1);
      StepLoads(s, capacity, hot, k);
      LoadedStep(hot, Requested(keys, n - 1), k);
      ReplayNext(keys, capacity, hot, n - 1);
    }
  }

  lemma {:induction false} StepLoads(s: Residents, capacity: nat, hot: set<Key>, k: Key)
    requires Fits(s, capacity, hot)
    ensures ReplayStep(s, capacity, hot, k).loaded == if k in hot then s.loaded + {k} else s.loaded
  {}

  /** The residents: as many of the requested keys as there is room for, the pins among them, and of the others
      those used latest. */
  ghost predicate KeepsNewest(keys: seq<Key>, capacity: nat, hot: set<Key>, n: nat, held: set<Key>)
    requires n <= |keys|
  {
    var r := Requested(keys, n);
    && held <= r && |held| == (if |r| <= capacity then |r| else capacity) && hot * r <= held
    && forall a, b :: a in held - hot && b in r - hot - held ==> UsedLater(keys, n, a, b)
  }

  lemma {:induction false} LaterUse(keys: seq<Key>, n: nat, a: Key, b: Key)
    requires n <= |keys| && LastUse(keys, n, b) < LastUse(keys, n, a)
    ensures UsedLater(keys, n, a, b)
  {
    forall j | 0 <= j < n && keys[j] == b
      ensures exists i :: j < i < n && keys[i] == a
    {
      assert j <= LastUse(keys, n, b);
      var i := LastUse(keys, n, a);
      assert j < i < n && keys[i] == a;
    }
  }

  /** After every request the replay holds the pins requested so far and the newest of the other keys. */
  lemma {:induction false} ReplayKeepsNewest(keys: seq<Key>, capacity: nat, hot: set<Key>, n: nat)
    requires |hot| < capacity && n <= |keys|
    ensures KeepsNewest(keys, capacity, hot, n, Held(ReplayState(keys, capacity, hot, n)))
  {
    var s := ReplayState(keys, capacity, hot, n);
    ReplayFillsUp(keys, capacity, hot, n);
    ReplayInOrder(keys, capacity, hot, n);
    ReplayLoads(keys, capacity, hot, n);
    StateFits(keys, capacity, hot, n);
    HeldSize(s, capacity, hot);
    forall a, b | a in Held(s) - hot && b in Requested(keys, n) - hot - Held(s)
      ensures UsedLater(keys, n, a, b)
    {
      var p :| 0 <= p < |s.cold| && s.cold[p] == a;
      LaterUse(keys, n, a, b);
    }
  }

  lemma {:induction false} HeldSize(s: Residents, capacity: nat, hot: set<Key>)
    requires Fits(s, capacity, hot)
    ensures |Held(s)| == Size(s)
  {
    DistinctSize(s.cold);
    assert s.loaded !! Elements(s.cold);
  }

  /** The residents before each request and after the last. */
  ghost predicate HoldsNewest(keys: seq<Key>, capacity: nat, hot: set<Key>, held: seq<set<Key>>) {
    |held| == |keys| + 1 && forall n: nat :: n <= |keys| ==> KeepsNewest(keys, capacity, hot, n, held[n])
  }

  ghost predicate HeldAfter(keys: seq<Key>, capacity: nat, hot: set<Key>, held: seq<set<Key>>, i: nat) {
    i < |held| && i <= |keys| && held[i] == Held(ReplayState(keys, capacity, hot, i))
  }

  lemma {:induction false} ReplayHolds(keys: seq<Key>, capacity: nat, hot: set<Key>) returns (held: seq<set<Key>>)
    requires |hot| < capacity
    ensures HoldsNewest(keys, capacity, hot, held)
    ensures ReplayHits(keys, capacity, hot, |keys|) == Hits(keys, held, |keys|)
  {
    held := seq(|keys| + 1, n requires 0 <= n <= |keys| => Held(ReplayState(keys, capacity, hot, n)));
    forall n: nat | n <= |keys|
      ensures KeepsNewest(keys, capacity, hot, n, held[n]) && HeldAfter(keys, capacity, hot, held, n)
    {
      ReplayKeepsNewest(keys, capacity, hot, n);
    }
    HitsAreHeld(keys, capacity, hot, held, |keys|);
  }

  lemma {:induction false} HitsAreHeld(keys: seq<Key>, capacity: nat, hot: set<Key>, held: seq<set<Key>>, n: nat)
    requires |held| == |keys| + 1 && n <= |keys|
    requires forall i: nat :: i <= |keys| ==> HeldAfter(keys, capacity, hot, held, i)
    ensures ReplayHits(keys, capacity, hot, n) == Hits(keys, held, n)
  {
    if n > 0 {
      HitsAreHeld(keys, capacity, hot, held, n - 1);
      assert HeldAfter(keys, capacity, hot, held, n - 1);
      HitIsHeld(keys, capacity, hot, held[n - 1], n - 1, n);
    }
  }

  lemma {:induction false} HitIsHeld(keys: seq<Key>, capacity: nat, hot: set<Key>, held: set<Key>, n: nat, next: nat)
    requires next == n + 1 <= |keys| && held == Held(ReplayState(keys, capacity, hot, n))
    ensures ReplayHits(keys, capacity, hot, next) ==
            ReplayHits(keys, capacity, hot, n) + if keys[n] in held then 1 else 0
  {
    ReplayNext(keys, capacity, hot, n);
    HoldsIsHeld(ReplayState(keys, capacity, hot, n), keys[n]);
  }

  lemma {:induction false} HoldsIsHeld(s: Residents, k: Key)
    ensures k in Held(s) <==> Holds(s, k)
  {}

  /** There is one such set. */
  lemma {:induction false} NewestIsUnique(keys: seq<Key>, capacity: nat, hot: set<Key>, n: nat, held: set<Key>,
                                          other: set<Key>)
    requires n <= |keys| && KeepsNewest(keys, capacity, hot, n, held) && KeepsNewest(keys, capacity, hot, n, other)
    ensures held == other
  {
    if held != other {
      var a, b := EachHasItsOwn(held, other);
      assert UsedLater(keys, n, a, b) && UsedLater(keys, n, b, a);
      RequestedSomewhere(keys, n, a);
      var i :| 0 <= i < n && keys[i] == a;
      NotBothLater(keys, n, a, b, i);
    }
  }

  lemma {:induction false} EachHasItsOwn(s: set<Key>, t: set<Key>) returns (a: Key, b: Key)
    requires |s| == |t| && s != t
    ensures a in s - t && b in t - s
  {
    if forall x :: x in s ==> x in t {
      SameSize(s, t);
    }
    if forall x :: x in t ==> x in s {
      SameSize(t, s);
    }
    a :| a in s && a !in t;
    b :| b in t && b !in s;
  }

  lemma {:induction false} RequestedSomewhere(keys: seq<Key>, n: nat, k: Key)
    requires n <= |keys| && k in Requested(keys, n)
    ensures exists i :: 0 <= i < n && keys[i] == k
  {
    if n > 0 && keys[n - 1] != k {
      RequestedSomewhere(keys, n - 1, k);
    }
  }

  lemma {:induction false} NotBothLater(keys: seq<Key>, n: nat, a: Key, b: Key, i: nat)
    requires i < n <= |keys| && keys[i] == a
    ensures !(UsedLater(keys, n, a, b) && UsedLater(keys, n, b, a))
  {
    var l := LastUse(keys, n, a);
    assert l >= i && keys[l] == a;
  }

  // ------------------------------------------------------------------ what the hindsight pins keep

  /** The residents beside hindsight pins: the pins requested so far, and the newest of the other keys, as many as
      there is room for. */
  ghost predicate KeepsPinned(trace: seq<Key>, room: nat, hot: set<Key>, n: nat, held: set<Key>)
    requires n <= |trace|
  {
    var r := Requested(trace, n);
    && held <= r && hot * r <= held && |held - hot| == (if |r - hot| <= room then |r - hot| else room)
    && forall a, b :: a in held - hot && b in r - hot - held ==> UsedLater(trace, n, a, b)
  }

  /** The residents before each request and after the last. */
  ghost predicate HoldsPinned(trace: seq<Key>, room: nat, hot: set<Key>, held: seq<set<Key>>) {
    |held| == |trace| + 1 && forall n: nat :: n <= |trace| ==> KeepsPinned(trace, room, hot, n, held[n])
  }

  lemma {:induction false} LruStepInOrder(trace: seq<Key>, hot: set<Key>, n: nat, next: nat, seen: seq<Key>, room: nat)
    requires room >= 1 && n < next == n + 1 <= |trace| && trace[n] !in hot && Distinct(seen) && |seen| <= room
    requires ColdInOrder(trace, hot, n, seen)
    ensures ColdInOrder(trace, hot, next, LruStep(seen, room, trace[n]))
  {
    var k, t := trace[n], LruStep(seen, room, trace[n]);
    if k in seen {
      var at := WithoutIsPart(seen, k);
      WithoutLeaves(seen, k);
      RestInOrder(trace, hot, n, seen, Without(seen, k), at, t);
    } else if |seen| >= room {
      var at := BackIsPart(seen);
      RestInOrder(trace, hot, n, seen, seen[1..], at, t);
    } else {
      var at := SameIsPart(seen);
      RestInOrder(trace, hot, n, seen, seen, at, t);
    }
  }

  lemma {:induction false} HotInOrder(trace: seq<Key>, hot: set<Key>, n: nat, next: nat, seen: seq<Key>)
    requires n < next == n + 1 <= |trace| && trace[n] in hot && trace[n] !in seen && ColdInOrder(trace, hot, n, seen)
    ensures ColdInOrder(trace, hot, next, seen)
  {
    var at := SameIsPart(seen);
    RestInOrder(trace, hot, n, seen, seen, at, seen);
  }

  lemma {:induction false} LruStepFills(seen: seq<Key>, room: nat, k: Key, r: set<Key>)
    requires room >= 1 && Distinct(seen) && Elements(seen) <= r
    requires |seen| == if |r| <= room then |r| else room
    ensures Elements(LruStep(seen, room, k)) <= r + {k}
    ensures |LruStep(seen, room, k)| == if |r + {k}| <= room then |r + {k}| else room
  {
    DistinctSize(seen);
    OneMore(Elements(seen), r, k, room);
    StepBringsOnlyRequest(seen, room, k);
    WithoutLength(seen, k);
    InElements(seen, k);
  }

  /** The order of the cold residents, and how many there are. */
  ghost predicate ColdKept(trace: seq<Key>, hot: set<Key>, room: nat, n: nat, seen: seq<Key>)
    requires n <= |trace|
  {
    var r := Requested(trace, n) - hot;
    && Distinct(seen) && Elements(seen) <= r && |seen| == (if |r| <= room then |r| else room)
    && ColdInOrder(trace, hot, n, seen)
  }

  lemma {:induction false} ColdKeptNext(trace: seq<Key>, hot: set<Key>, room: nat, n: nat, next: nat, seen: seq<Key>)
    requires room >= 1 && n < next == n + 1 <= |trace| && ColdKept(trace, hot, room, n, seen)
    ensures trace[n] in hot ==> ColdKept(trace, hot, room, next, seen)
    ensures trace[n] !in hot && Distinct(LruStep(seen, room, trace[n])) ==>
              ColdKept(trace, hot, room, next, LruStep(seen, room, trace[n]))
  {
    var k, r := trace[n], Requested(trace, n) - hot;
    assert Requested(trace, next) == Requested(trace, n) + {k};
    if k in hot {
      assert Requested(trace, next) - hot == r;
      InElements(seen, k);
      HotInOrder(trace, hot, n, next, seen);
    } else {
      assert Requested(trace, next) - hot == r + {k};
      LruStepFills(seen, room, k, r);
      LruStepInOrder(trace, hot, n, next, seen, room);
    }
  }

  lemma {:induction false} ColdOrderKept(trace: seq<Key>, hot: set<Key>, room: nat, n: nat)
    requires room >= 1 && n <= |trace|
    ensures ColdKept(trace, hot, room, n, ColdOrder(trace, hot, room, n))
  {
    if n == 0 {
      PinnedStart(trace, hot, room);
      assert Requested(trace, 0) - hot == {};
    } else {
      ColdOrderKept(trace, hot, room, n - 1);
      ColdStep(trace, hot, room, n - 1);
      LruFits(Cold(trace, hot, n), room, |Cold(trace, hot, n)|);
      ColdKeptNext(trace, hot, room, n - 1, n, ColdOrder(trace, hot, room, n - 1));
    }
  }

  lemma {:induction false} KeptIsPinned(trace: seq<Key>, hot: set<Key>, room: nat, n: nat, seen: seq<Key>)
    requires n <= |trace| && ColdKept(trace, hot, room, n, seen)
    ensures KeepsPinned(trace, room, hot, n, hot * Requested(trace, n) + Elements(seen))
  {
    var r := Requested(trace, n);
    var held := hot * r + Elements(seen);
    DistinctSize(seen);
    assert held - hot == Elements(seen);
    forall a, b | a in held - hot && b in r - hot - held
      ensures UsedLater(trace, n, a, b)
    {
      var p :| 0 <= p < |seen| && seen[p] == a;
      LaterUse(trace, n, a, b);
    }
  }

  lemma {:induction false} PinnedHolds(trace: seq<Key>, hot: set<Key>, room: nat) returns (held: seq<set<Key>>)
    requires room >= 1
    ensures HoldsPinned(trace, room, hot, held) && PinnedHits(trace, hot, room, |trace|) == Hits(trace, held, |trace|)
  {
    held := seq(|trace| + 1, n requires 0 <= n <= |trace| => PinnedSet(trace, hot, room, n));
    forall n: nat | n <= |trace|
      ensures KeepsPinned(trace, room, hot, n, held[n]) && PinnedAfter(trace, hot, room, held, n)
    {
      ColdOrderKept(trace, hot, room, n);
      KeptIsPinned(trace, hot, room, n, ColdOrder(trace, hot, room, n));
    }
    PinnedHitsAreHeld(trace, hot, room, held, |trace|);
  }

  ghost predicate PinnedAfter(trace: seq<Key>, hot: set<Key>, room: nat, held: seq<set<Key>>, i: nat)
    requires room >= 1
  {
    i < |held| && i <= |trace| && held[i] == PinnedSet(trace, hot, room, i)
  }

  lemma {:induction false} PinnedHitsAreHeld(trace: seq<Key>, hot: set<Key>, room: nat, held: seq<set<Key>>, n: nat)
    requires room >= 1 && |held| == |trace| + 1 && n <= |trace|
    requires forall i: nat :: i <= |trace| ==> PinnedAfter(trace, hot, room, held, i)
    ensures PinnedHits(trace, hot, room, n) == Hits(trace, held, n)
  {
    if n == 0 {
      PinnedStart(trace, hot, room);
    } else {
      PinnedHitsAreHeld(trace, hot, room, held, n - 1);
      assert PinnedAfter(trace, hot, room, held, n - 1);
      PinnedHitIsHeld(trace, hot, room, held[n - 1], n - 1, n);
    }
  }

  lemma {:induction false} PinnedHitIsHeld(trace: seq<Key>, hot: set<Key>, room: nat, held: set<Key>, n: nat, next: nat)
    requires room >= 1 && next == n + 1 <= |trace| && held == PinnedSet(trace, hot, room, n)
    ensures PinnedHits(trace, hot, room, next) ==
            PinnedHits(trace, hot, room, n) + if trace[n] in held then 1 else 0
  {
    PinnedSetStep(trace, hot, room, n);
  }

  lemma {:induction false} StateWithoutPins(keys: seq<Key>, capacity: nat, n: nat)
    requires capacity >= 1 && n <= |keys|
    ensures ReplayState(keys, capacity, {}, n) == Residents({}, LruOrder(keys, capacity, n))
  {
    if n > 0 {
      StateWithoutPins(keys, capacity, n - 1);
      LruFits(keys, capacity, n - 1);
      StepWithoutPins(LruOrder(keys, capacity, n - 1), capacity, keys[n - 1]);
    }
  }

  /** Without pins the replay is plain LRU. */
  lemma {:induction false} ReplayWithoutPins(keys: seq<Key>, capacity: nat, n: nat)
    requires capacity >= 1 && n <= |keys|
    ensures ReplayHits(keys, capacity, {}, n) == LruHits(keys, capacity, n)
  {
    if n > 0 {
      ReplayWithoutPins(keys, capacity, n - 1);
      StateWithoutPins(keys, capacity, n - 1);
      SameHit(keys, capacity, {}, n - 1, n, ReplayState(keys, capacity, {}, n - 1));
    }
  }

  lemma {:induction false} SameHit(keys: seq<Key>, capacity: nat, hot: set<Key>, n: nat, next: nat, s: Residents)
    requires capacity >= 1 && next == n + 1 <= |keys| && s == ReplayState(keys, capacity, hot, n)
    requires s == Residents({}, LruOrder(keys, capacity, n))
             && ReplayHits(keys, capacity, hot, n) == LruHits(keys, capacity, n)
    ensures ReplayHits(keys, capacity, hot, next) == LruHits(keys, capacity, next)
  {
    assert Holds(s, keys[n]) <==> keys[n] in LruOrder(keys, capacity, n);
  }

  lemma {:induction false} StepWithoutPins(c: seq<Key>, capacity: nat, k: Key)
    requires capacity >= 1 && |c| <= capacity
    ensures ReplayStep(Residents({}, c), capacity, {}, k) == Residents({}, LruStep(c, capacity, k))
  {}
}
