/** Drafts from repeated n-grams: the backward scans, and the index that must give the same drafts. */
module NgramDrafts {
  import opened Substrings

  const SPEC_MAX: nat := 8

  function Cap(cap: nat): nat {
    if cap > SPEC_MAX then SPEC_MAX else cap
  }

  // ------------------------------------------------------------------ occurrences

  /** The starts below m of an n-gram, in increasing order. */
  ghost function Starts(s: seq<Id>, key: seq<Id>, m: nat): (r: seq<nat>)
    ensures |r| <= m
  {
    if m == 0 then [] else Starts(s, key, m - 1) + if OccursAt(s, key, m - 1) then [m - 1] else []
  }

  /** They are exactly the occurrences, each once. */
  lemma {:induction false} StartsAreOccurrences(s: seq<Id>, key: seq<Id>, m: nat)
    ensures forall j: nat :: j in Starts(s, key, m) <==> j < m && OccursAt(s, key, j)
    ensures forall a, b :: 0 <= a < b < |Starts(s, key, m)| ==> Starts(s, key, m)[a] < Starts(s, key, m)[b]
  {
    if m > 0 {
      StartsAreOccurrences(s, key, m - 1);
      var r := Starts(s, key, m - 1);
      assert forall a :: 0 <= a < |r| ==> r[a] in r;
    }
  }

  /** The n-gram that ends the first T ids. */
  function Suffix(s: seq<Id>, T: nat, n: nat): seq<Id>
    requires n <= T <= |s|
  {
    s[T - n..T]
  }

  /** Earlier starts of the suffix n-gram of the first T ids; the suffix itself is not among them. */
  ghost function Earlier(s: seq<Id>, T: nat, n: nat): seq<nat>
    requires T <= |s|
  {
    if T < n + 1 then [] else Starts(s, Suffix(s, T, n), T - n)
  }

  // ------------------------------------------------------------------ the drafts

  /** Ids copied from after the most recent start, up to the cap and the end of the history, as long as
      the second most recent start, when there is one, says the same without running into the first. */
  ghost function Agreed(s: seq<Id>, T: nat, n: nat, m1: nat, m2: int, nd: nat, cap: nat): seq<Id>
    requires T <= |s| && -1 <= m2
    decreases T - (m1 + n + nd)
  {
    if nd < cap && m1 + n + nd < T && (m2 < 0 || (m2 + n + nd < m1 && s[m2 + n + nd] == s[m1 + n + nd])) then
      [s[m1 + n + nd]] + Agreed(s, T, n, m1, m2, nd + 1, cap)
    else []
  }

  /** Position i of the history can be drafted: it exists, and both starts say the same. */
  ghost predicate CanDraft(s: seq<Id>, T: nat, n: nat, m1: nat, m2: int, i: nat)
    requires T <= |s| && -1 <= m2
  {
    m1 + n + i < T && (m2 < 0 || (m2 + n + i < m1 && s[m2 + n + i] == s[m1 + n + i]))
  }

  ghost predicate DraftedAt(s: seq<Id>, T: nat, n: nat, m1: nat, m2: int, nd: nat, d: seq<Id>, i: nat)
    requires T <= |s| && -1 <= m2
  {
    i < |d| && CanDraft(s, T, n, m1, m2, nd + i) && d[i] == s[m1 + n + nd + i]
  }

  /** The draft copies what follows the most recent start, and is as long as the cap and the agreement of
      the two starts allow. */
  lemma {:induction false} AgreedIsLongest(s: seq<Id>, T: nat, n: nat, m1: nat, m2: int, nd: nat, cap: nat)
    requires T <= |s| && -1 <= m2 && nd <= cap
    ensures var d := Agreed(s, T, n, m1, m2, nd, cap);
            && nd + |d| <= cap
            && (forall i: nat :: i < |d| ==> DraftedAt(s, T, n, m1, m2, nd, d, i))
            && (nd + |d| < cap ==> !CanDraft(s, T, n, m1, m2, nd + |d|))
    decreases T - (m1 + n + nd)
  {
    if nd < cap && CanDraft(s, T, n, m1, m2, nd) {
      AgreedIsLongest(s, T, n, m1, m2, nd + 1, cap);
      var d, e := Agreed(s, T, n, m1, m2, nd, cap), Agreed(s, T, n, m1, m2, nd + 1, cap);
      assert d == [s[m1 + n + nd]] + e;
      forall i: nat | i < |d|
        ensures DraftedAt(s, T, n, m1, m2, nd, d, i)
      {
        if i > 0 {
          assert DraftedAt(s, T, n, m1, m2, nd + 1, e, i - 1);
        }
      }
    }
  }

  ghost function DraftAt(s: seq<Id>, T: nat, n: nat, cap: nat): seq<Id>
    requires T <= |s|
  {
    var r := Earlier(s, T, n);
    if r == [] then []
    else Agreed(s, T, n, r[|r| - 1], if |r| > 1 then r[|r| - 2] else -1, 0, Cap(cap))
  }

  /** The gated draft: four-grams, and three-grams when those propose nothing. */
  ghost function GatedDraft(s: seq<Id>, T: nat, cap: nat): seq<Id>
    requires T <= |s|
  {
    if DraftAt(s, T, 4, cap) != [] then DraftAt(s, T, 4, cap) else DraftAt(s, T, 3, cap)
  }

  function Copied(s: seq<Id>, T: nat, start: nat, cap: nat): seq<Id>
    requires start <= T <= |s|
  {
    s[start..if start + Cap(cap) < T then start + Cap(cap) else T]
  }

  lemma {:induction false} EarlierFits(s: seq<Id>, T: nat, n: nat, k: nat)
    requires T <= |s| && k < |Earlier(s, T, n)|
    ensures Earlier(s, T, n)[k] + n < T
  {
    StartsAreOccurrences(s, Suffix(s, T, n), T - n);
    assert Earlier(s, T, n)[k] in Earlier(s, T, n);
  }

  /** What follows the most recent repeat of the suffix n-gram. */
  ghost function CopiedAt(s: seq<Id>, T: nat, n: nat, cap: nat): seq<Id>
    requires T <= |s| && Earlier(s, T, n) != []
  {
    var r := Earlier(s, T, n);
    EarlierFits(s, T, n, |r| - 1);
    Copied(s, T, r[|r| - 1] + n, cap)
  }

  /** The eager draft: what follows the most recent repeat of the longest suffix n-gram that repeats, of
      four ids, three or two. */
  ghost function EagerDraft(s: seq<Id>, T: nat, cap: nat): seq<Id>
    requires T <= |s|
  {
    if Earlier(s, T, 4) != [] then CopiedAt(s, T, 4, cap)
    else if Earlier(s, T, 3) != [] then CopiedAt(s, T, 3, cap)
    else if Earlier(s, T, 2) != [] then CopiedAt(s, T, 2, cap)
    else []
  }

  // ------------------------------------------------------------------ the drafts, read off the history

  /** The last n ids of the history are read at j too, and at least one id follows there. */
  ghost predicate Repeats(s: seq<Id>, T: nat, n: nat, j: int)
    requires T <= |s|
  {
    0 <= j && j + n < T && s[j..j + n] == s[T - n..T]
  }

  ghost predicate NoRepeat(s: seq<Id>, T: nat, n: nat)
    requires T <= |s|
  {
    forall j :: !Repeats(s, T, n, j)
  }

  /** j is the most recent repeat below m. */
  ghost predicate LastRepeat(s: seq<Id>, T: nat, n: nat, j: int, m: int)
    requires T <= |s|
  {
    Repeats(s, T, n, j) && j < m && forall k :: j < k < m ==> !Repeats(s, T, n, k)
  }

  lemma {:induction false} EarlierIsRepeats(s: seq<Id>, T: nat, n: nat)
    requires T <= |s|
    ensures forall j: nat :: j in Earlier(s, T, n) <==> Repeats(s, T, n, j)
    ensures forall a, b :: 0 <= a < b < |Earlier(s, T, n)| ==> Earlier(s, T, n)[a] < Earlier(s, T, n)[b]
  {
    if T >= n + 1 {
      var key := Suffix(s, T, n);
      StartsAreOccurrences(s, key, T - n);
      forall j: nat
        ensures j < T - n && OccursAt(s, key, j) <==> Repeats(s, T, n, j)
      {
        if j < T - n && OccursAt(s, key, j) {
          assert s[j..j + n] == key;
        }
        if Repeats(s, T, n, j) {
          forall k | 0 <= k < n
            ensures key[k] == s[j + k]
          {
            assert s[j..j + n][k] == key[k];
          }
        }
      }
    }
  }

  /** The starts, read off the history: the most recent repeat is the last, and the one before it the one
      before. */
  lemma {:induction false} EarlierEnds(s: seq<Id>, T: nat, n: nat)
    requires T <= |s|
    ensures Earlier(s, T, n) == [] <==> NoRepeat(s, T, n)
    ensures var r := Earlier(s, T, n);
            && (r != [] ==> LastRepeat(s, T, n, r[|r| - 1], T))
            && (|r| == 1 ==> forall k :: k < r[0] ==> !Repeats(s, T, n, k))
            && (|r| > 1 ==> LastRepeat(s, T, n, r[|r| - 2], r[|r| - 1]))
  {
    EarlierIsRepeats(s, T, n);
    var r := Earlier(s, T, n);
    if r == [] {
      forall j
        ensures !Repeats(s, T, n, j)
      {
        assert j >= 0 ==> j !in r;
      }
    } else {
      assert r[|r| - 1] in r;
      forall k | Repeats(s, T, n, k)
        ensures k <= r[|r| - 1] && (k < r[|r| - 1] ==> |r| > 1 && k <= r[|r| - 2])
      {
        assert k in r;
        var i :| 0 <= i < |r| && r[i] == k;
      }
      assert |r| > 1 ==> r[|r| - 2] in r;
    }
  }

  /** No more than n of the last ids repeat. */
  ghost predicate NothingLonger(s: seq<Id>, T: nat, n: nat)
    requires T <= |s|
  {
    forall m: nat :: n < m <= 4 ==> NoRepeat(s, T, m)
  }

  /** The eager draft of n ids: what follows their most recent repeat, when nothing longer repeats. */
  ghost predicate EagerAt(s: seq<Id>, T: nat, cap: nat, out: seq<Id>, n: nat, j: nat)
    requires T <= |s|
  {
    && 2 <= n <= 4 && LastRepeat(s, T, n, j, T) && NothingLonger(s, T, n)
    && var end := j + n + if cap < 8 then cap else 8;
       out == s[j + n..if end < T then end else T]
  }

  ghost predicate IsEager(s: seq<Id>, T: nat, cap: nat, out: seq<Id>)
    requires T <= |s|
  {
    && (out != [] ==> exists n: nat, j: nat :: EagerAt(s, T, cap, out, n, j))
    && (out == [] ==> cap == 0 || NothingLonger(s, T, 1))
  }

  lemma {:induction false} CopiedIsEager(s: seq<Id>, T: nat, cap: nat, n: nat)
    requires T <= |s| && 2 <= n <= 4 && Earlier(s, T, n) != [] && NothingLonger(s, T, n)
    ensures IsEager(s, T, cap, CopiedAt(s, T, n, cap))
  {
    var r := Earlier(s, T, n);
    EarlierEnds(s, T, n);
    EarlierFits(s, T, n, |r| - 1);
    assert EagerAt(s, T, cap, CopiedAt(s, T, n, cap), n, r[|r| - 1]);
  }

  lemma {:induction false} NothingLongerNext(s: seq<Id>, T: nat, n: nat)
    requires T <= |s| && n <= 3 && NothingLonger(s, T, n + 1) && Earlier(s, T, n + 1) == []
    ensures NothingLonger(s, T, n)
  {
    EarlierEnds(s, T, n + 1);
    forall m: nat | n < m <= 4
      ensures NoRepeat(s, T, m)
    {
      assert m == n + 1 || n + 1 < m;
    }
  }

  lemma {:induction false} EagerDraftIsEager(s: seq<Id>, T: nat, cap: nat)
    requires T <= |s|
    ensures IsEager(s, T, cap, EagerDraft(s, T, cap))
  {
    if Earlier(s, T, 4) != [] {
      CopiedIsEager(s, T, cap, 4);
    } else {
      NothingLongerNext(s, T, 3);
      if Earlier(s, T, 3) != [] {
        CopiedIsEager(s, T, cap, 3);
      } else {
        NothingLongerNext(s, T, 2);
        if Earlier(s, T, 2) != [] {
          CopiedIsEager(s, T, cap, 2);
        } else {
          NothingLongerNext(s, T, 1);
        }
      }
    }
  }

  /** out copies what follows j, as far as it goes: to the cap, the end of the history, or where the repeat at
      i, when there is one, runs into j or reads otherwise. */
  ghost predicate CopiesAgreed(s: seq<Id>, T: nat, n: nat, j: nat, i: int, cap: nat, out: seq<Id>)
    requires T <= |s|
  {
    var l := |out|;
    && l <= cap && l <= 8 && j + n + l <= T && out == s[j + n..j + n + l]
    && (i >= 0 && l > 0 ==> i + n + l <= j && out == s[i + n..i + n + l])
    && (l == cap || l == 8 || j + n + l == T || (i >= 0 && (i + n + l >= j || s[i + n + l] != s[j + n + l])))
  }

  /** The gated draft of n ids: what follows their most recent repeat j, gated by the one before it, i. */
  ghost predicate GatedAt(s: seq<Id>, T: nat, n: nat, cap: nat, out: seq<Id>, j: nat, i: int)
    requires T <= |s|
  {
    && LastRepeat(s, T, n, j, T)
    && (if i < 0 then forall k :: k < j ==> !Repeats(s, T, n, k) else LastRepeat(s, T, n, i, j))
    && CopiesAgreed(s, T, n, j, i, cap, out)
  }

  ghost predicate GatedBy(s: seq<Id>, T: nat, n: nat, cap: nat, out: seq<Id>)
    requires T <= |s|
  {
    if NoRepeat(s, T, n) then out == [] else exists j: nat, i: int :: GatedAt(s, T, n, cap, out, j, i)
  }

  /** Four ids first, and three only when four propose nothing. */
  ghost predicate IsGated(s: seq<Id>, T: nat, cap: nat, out: seq<Id>)
    requires T <= |s|
  {
    (out != [] && GatedBy(s, T, 4, cap, out)) || (GatedBy(s, T, 4, cap, []) && GatedBy(s, T, 3, cap, out))
  }

  lemma {:induction false} AgreedCopies(s: seq<Id>, T: nat, n: nat, j: nat, i: int, cap: nat)
    requires T <= |s| && -1 <= i < j && j + n < T
    ensures CopiesAgreed(s, T, n, j, i, cap, Agreed(s, T, n, j, i, 0, Cap(cap)))
  {
    var out := Agreed(s, T, n, j, i, 0, Cap(cap));
    AgreedIsLongest(s, T, n, j, i, 0, Cap(cap));
    forall k: nat | k < |out|
      ensures j + n + k < T && out[k] == s[j + n + k] && (i >= 0 ==> i + n + k < j && out[k] == s[i + n + k])
    {
      assert DraftedAt(s, T, n, j, i, 0, out, k);
    }
    assert out != [] ==> DraftedAt(s, T, n, j, i, 0, out, |out| - 1);
  }

  lemma {:induction false} DraftAtIsGated(s: seq<Id>, T: nat, n: nat, cap: nat)
    requires T <= |s|
    ensures GatedBy(s, T, n, cap, DraftAt(s, T, n, cap))
  {
    EarlierEnds(s, T, n);
    var r := Earlier(s, T, n);
    if r != [] {
      var j, i := r[|r| - 1], if |r| > 1 then r[|r| - 2] else -1;
      AgreedCopies(s, T, n, j, i, cap);
      assert GatedAt(s, T, n, cap, DraftAt(s, T, n, cap), j, i);
    }
  }

  lemma {:induction false} GatedDraftIsGated(s: seq<Id>, T: nat, cap: nat)
    requires T <= |s|
    ensures IsGated(s, T, cap, GatedDraft(s, T, cap))
  {
    DraftAtIsGated(s, T, 4, cap);
    DraftAtIsGated(s, T, 3, cap);
  }

  // ------------------------------------------------------------------ the backward scans

  method Hit(s: seq<Id>, T: nat, n: nat, j: nat) returns (hit: bool)
    requires n <= T <= |s| && j + n <= T
    ensures hit <==> OccursAt(s, Suffix(s, T, n), j)
  {
    for i := 0 to n
      invariant forall k :: 0 <= k < i ==> Suffix(s, T, n)[k] == s[j + k]
    {
      if s[j + i] != s[T - n + i] {
        assert Suffix(s, T, n)[i] == s[T - n + i];
        return false;
      }
    }
    hit := true;
  }

  /** The last start below m, or -1. */
  method LastStart(s: seq<Id>, T: nat, n: nat, m: nat) returns (j: int)
    requires n < T <= |s| && m <= T - n
    ensures -1 <= j < m
    ensures j == -1 ==> Starts(s, Suffix(s, T, n), m) == []
    ensures j >= 0 ==> Starts(s, Suffix(s, T, n), m) == Starts(s, Suffix(s, T, n), j) + [j]
  {
    j := m - 1;
    while j >= 0
      invariant -1 <= j < m
      invariant Starts(s, Suffix(s, T, n), m) == Starts(s, Suffix(s, T, n), j + 1)
    {
      var hit := Hit(s, T, n, j);
      if hit {
        return;
      }
      j := j - 1;
    }
  }

  lemma {:induction false} AgreedStops(s: seq<Id>, T: nat, n: nat, m1: nat, m2: int, nd: nat, cap: nat)
    requires T <= |s| && -1 <= m2 && (nd >= cap || !CanDraft(s, T, n, m1, m2, nd))
    ensures Agreed(s, T, n, m1, m2, nd, cap) == []
  {}

  method CopyAgreed(s: seq<Id>, T: nat, n: nat, m1: nat, m2: int, cap: nat) returns (out: seq<Id>)
    requires T <= |s| && -1 <= m2
    ensures out == Agreed(s, T, n, m1, m2, 0, cap)
  {
    out := [];
    ghost var goal := Agreed(s, T, n, m1, m2, 0, cap);
    while |out| < cap && m1 + n + |out| < T
      invariant out + Agreed(s, T, n, m1, m2, |out|, cap) == goal
      decreases T - (m1 + n + |out|)
    {
      var cand := s[m1 + n + |out|];
      if m2 >= 0 && (m2 + n + |out| >= m1 || s[m2 + n + |out|] != cand) {
        break;
      }
      ghost var before := out;
      out := out + [cand];
      AgreedNext(s, T, n, m1, m2, before, out, cap);
    }
    AgreedStops(s, T, n, m1, m2, |out|, cap);
  }

  lemma {:induction false} AgreedNext(s: seq<Id>, T: nat, n: nat, m1: nat, m2: int, out: seq<Id>, more: seq<Id>,
                                      cap: nat)
    requires T <= |s| && -1 <= m2 && |out| < cap && CanDraft(s, T, n, m1, m2, |out|)
    requires more == out + [s[m1 + n + |out|]]
    ensures more + Agreed(s, T, n, m1, m2, |more|, cap) == out + Agreed(s, T, n, m1, m2, |out|, cap)
  {
    var x, rest := s[m1 + n + |out|], Agreed(s, T, n, m1, m2, |more|, cap);
    assert Agreed(s, T, n, m1, m2, |out|, cap) == [x] + rest;
    assert (out + [x]) + rest == out + ([x] + rest);
  }

  lemma {:induction false} NoStart(s: seq<Id>, T: nat, n: nat, cap: nat)
    requires T <= |s| && Earlier(s, T, n) == []
    ensures DraftAt(s, T, n, cap) == []
  {}

  lemma {:induction false} LastTwo(s: seq<Id>, T: nat, n: nat, cap: nat, m1: nat, m2: int, r: seq<nat>)
    requires n < T <= |s| && -1 <= m2 && Earlier(s, T, n) == r + [m1]
    requires if m2 < 0 then r == [] else r != [] && r[|r| - 1] == m2
    ensures DraftAt(s, T, n, cap) == Agreed(s, T, n, m1, m2, 0, Cap(cap))
  {}

  /** One order of the scan: the two most recent starts and what they agree on. */
  method ScanOrder(s: seq<Id>, T: nat, n: nat, cap: nat) returns (out: seq<Id>)
    requires n < T <= |s|
    ensures out == DraftAt(s, T, n, cap)
  {
    var m1 := LastStart(s, T, n, T - n);
    if m1 < 0 {
      NoStart(s, T, n, cap);
      return [];
    }
    var m2 := LastStart(s, T, n, m1);
    out := CopyAgreed(s, T, n, m1, m2, Cap(cap));
    LastTwo(s, T, n, cap, m1, m2, Starts(s, Suffix(s, T, n), m1));
  }

  /** The engine's scan. */
  method SpecDraft(s: seq<Id>, T: nat, cap: nat) returns (out: seq<Id>)
    requires T <= |s|
    ensures out == GatedDraft(s, T, cap) && IsGated(s, T, cap, out)
  {
    out := SpecOrders(s, T, cap);
    GatedDraftIsGated(s, T, cap);
  }

  method SpecOrders(s: seq<Id>, T: nat, cap: nat) returns (out: seq<Id>)
    requires T <= |s|
    ensures out == GatedDraft(s, T, cap)
  {
    var n := 4;
    while n >= 3
      invariant 2 <= n <= 4 && (n < 4 ==> DraftAt(s, T, 4, cap) == []) && (n < 3 ==> DraftAt(s, T, 3, cap) == [])
    {
      if T >= n + 1 {
        out := ScanOrder(s, T, n, cap);
        if out != [] {
          return;
        }
      }
      n := n - 1;
    }
    out := [];
  }

  method CopyTo(s: seq<Id>, T: nat, start: nat, cap: nat) returns (out: seq<Id>)
    requires start <= T <= |s|
    ensures out == Copied(s, T, start, cap)
  {
    out := [];
    for i := 0 to Cap(cap)
      invariant out == s[start..if start + i < T then start + i else T]
    {
      if start + i < T {
        out := out + [s[start + i]];
      }
    }
  }

  lemma {:induction false} EagerStep(s: seq<Id>, T: nat, cap: nat, n: nat, r: seq<nat>, j: nat)
    requires T <= |s| && Earlier(s, T, n) == r + [j]
    ensures j + n <= T && CopiedAt(s, T, n, cap) == Copied(s, T, j + n, cap)
  {
    EarlierFits(s, T, n, |r|);
  }

  /** One order of the eager scan. */
  method EagerOrder(s: seq<Id>, T: nat, n: nat, cap: nat) returns (found: bool, out: seq<Id>)
    requires T <= |s| && 2 <= n <= 4
    ensures found <==> Earlier(s, T, n) != []
    ensures found ==> out == CopiedAt(s, T, n, cap)
  {
    found, out := false, [];
    if T >= n + 1 {
      var j := LastStart(s, T, n, T - n);
      if j >= 0 {
        EagerStep(s, T, cap, n, Starts(s, Suffix(s, T, n), j), j);
        out := CopyTo(s, T, j + n, cap);
        found := true;
      }
    }
  }

  /** No order above n repeats. */
  ghost predicate NoneAbove(s: seq<Id>, T: nat, n: nat)
    requires T <= |s|
  {
    && (n < 4 ==> Earlier(s, T, 4) == []) && (n < 3 ==> Earlier(s, T, 3) == []) && (n < 2 ==> Earlier(s, T, 2) == [])
  }

  /** The eager scan, from the longest order down. */
  method EagerScan(s: seq<Id>, T: nat, cap: nat) returns (out: seq<Id>)
    requires T <= |s|
    ensures out == EagerDraft(s, T, cap) && IsEager(s, T, cap, out)
  {
    out := EagerOrders(s, T, cap);
    EagerDraftIsEager(s, T, cap);
  }

  method EagerOrders(s: seq<Id>, T: nat, cap: nat) returns (out: seq<Id>)
    requires T <= |s|
    ensures out == EagerDraft(s, T, cap)
  {
    var n := 4;
    while n >= 2
      invariant 1 <= n <= 4 && NoneAbove(s, T, n)
    {
      var found;
      found, out := EagerOrder(s, T, n, cap);
      if found {
        return;
      }
      n := n - 1;
    }
    out := [];
  }

  // ------------------------------------------------------------------ the index

  /** Of all n-grams, only the one just left behind starts where it does. */
  lemma {:induction false} OneKey(s: seq<Id>, key: seq<Id>, left: seq<Id>, T: nat, n: nat)
    requires n < T <= |s| && |key| == n && left == s[T - n - 1..T - 1]
    ensures Starts(s, key, T - n) == Starts(s, key, T - 1 - n) + if key == left then [T - n - 1] else []
  {
    assert OccursAt(s, left, T - n - 1);
    if OccursAt(s, key, T - n - 1) {
      assert key == left;
    }
  }

  function Lookup(ix: map<seq<Id>, seq<nat>>, key: seq<Id>): seq<nat> {
    if key in ix then ix[key] else []
  }

  /** The index lists the starts of a key in the first t ids, its own suffix aside. */
  ghost predicate Indexed(ix: map<seq<Id>, seq<nat>>, s: seq<Id>, key: seq<Id>, t: nat) {
    Lookup(ix, key) == Starts(s, key, if t >= |key| then t - |key| else 0)
  }

  lemma {:induction false} IndexedNext(ix: map<seq<Id>, seq<nat>>, s: seq<Id>, key: seq<Id>, left: seq<Id>, T: nat,
                                       n: nat)
    requires n + 1 <= T <= |s| && |key| == n && left == s[T - n - 1..T - 1]
    requires Indexed(ix, s, key, T - 1) && Indexed(ix, s, left, T - 1)
    ensures Indexed(ix[left := Lookup(ix, left) + [T - n - 1]], s, key, T)
  {
    OneKey(s, key, left, T, n);
    if key != left {
      assert Lookup(ix[left := Lookup(ix, left) + [T - n - 1]], key) == Lookup(ix, key);
    }
  }

  /** The starts of n-grams after one more id; other orders are not touched. */
  method IndexOrder(ix: map<seq<Id>, seq<nat>>, s: seq<Id>, T: nat, n: nat) returns (r: map<seq<Id>, seq<nat>>)
    requires 2 <= n <= 4 && 0 < T <= |s|
    requires forall key: seq<Id> :: |key| == n ==> Indexed(ix, s, key, T - 1)
    ensures forall key: seq<Id> :: |key| == n ==> Indexed(r, s, key, T)
    ensures forall key: seq<Id> :: |key| != n ==> Lookup(r, key) == Lookup(ix, key)
  {
    r := ix;
    if T >= n + 1 {
      var left := s[T - n - 1..T - 1];
      r := ix[left := Lookup(ix, left) + [T - n - 1]];
      forall key: seq<Id> | |key| == n
        ensures Indexed(r, s, key, T)
      {
        IndexedNext(ix, s, key, left, T, n);
      }
    } else {
      forall key: seq<Id> | |key| == n
        ensures Indexed(r, s, key, T)
      {
        assert Indexed(ix, s, key, T - 1);
      }
    }
  }

  /** Every start of every two-, three- and four-gram of the history except its own suffix. Keys of
      different lengths never meet, so the three tables of the script are one map here. */
  class NgramIndex {
    const s: seq<Id>
    var T: nat
    var ix: map<seq<Id>, seq<nat>>

    ghost predicate Valid()
      reads this
    {
      T <= |s| && forall key: seq<Id> :: 2 <= |key| <= 4 ==> Indexed(ix, s, key, T)
    }

    constructor (s: seq<Id>)
      ensures this.s == s && T == 0 && Valid()
    {
      this.s, T, ix := s, 0, map[];
    }

    /** One more id of history: index the n-grams that stop being its suffix. */
    method Advance()
      requires Valid() && T < |s|
      modifies this
      ensures Valid() && T == old(T) + 1
    {
      T := T + 1;
      for n := 2 to 5
        invariant T == old(T) + 1 && T <= |s|
        invariant forall key: seq<Id> :: 2 <= |key| < n ==> Indexed(ix, s, key, T)
        invariant forall key: seq<Id> :: n <= |key| <= 4 ==> Indexed(ix, s, key, T - 1)
      {
        ix := IndexOrder(ix, s, T, n);
      }
    }

    /** Earlier starts of the suffix. */
    method Recent(n: nat) returns (r: seq<nat>)
      requires Valid() && 2 <= n <= 4
      ensures r == Earlier(s, T, n)
    {
      if T < n + 1 {
        return [];
      }
      assert Indexed(ix, s, s[T - n..T], T);
      r := Lookup(ix, s[T - n..T]);
    }

    /** The gated draft from the index. */
    method P0(cap: nat) returns (out: seq<Id>)
      requires Valid()
      ensures out == GatedDraft(s, T, cap) && IsGated(s, T, cap, out)
    {
      out := GatedOrders(cap);
      GatedDraftIsGated(s, T, cap);
    }

    method GatedOrders(cap: nat) returns (out: seq<Id>)
      requires Valid()
      ensures out == GatedDraft(s, T, cap)
    {
      var n := 4;
      while n >= 3
        invariant 2 <= n <= 4 && (n < 4 ==> DraftAt(s, T, 4, cap) == []) && (n < 3 ==> DraftAt(s, T, 3, cap) == [])
      {
        var r := Recent(n);
        if r != [] {
          out := CopyAgreed(s, T, n, r[|r| - 1], if |r| > 1 then r[|r| - 2] else -1, Cap(cap));
          if out != [] {
            return;
          }
        }
        n := n - 1;
      }
      out := [];
    }

    /** The eager draft from the index. */
    method P1(cap: nat) returns (out: seq<Id>)
      requires Valid()
      ensures out == EagerDraft(s, T, cap) && IsEager(s, T, cap, out)
    {
      out := LongestFirst(cap);
      EagerDraftIsEager(s, T, cap);
    }

    method LongestFirst(cap: nat) returns (out: seq<Id>)
      requires Valid()
      ensures out == EagerDraft(s, T, cap)
    {
      var n := 4;
      while n >= 2
        invariant 1 <= n <= 4 && NoneAbove(s, T, n)
      {
        var found;
        found, out := CopyRecent(n, cap);
        if found {
          return;
        }
        n := n - 1;
      }
      out := [];
    }

    method CopyRecent(n: nat, cap: nat) returns (found: bool, out: seq<Id>)
      requires Valid() && 2 <= n <= 4
      ensures found <==> Earlier(s, T, n) != []
      ensures found ==> out == CopiedAt(s, T, n, cap)
    {
      var r := Recent(n);
      found, out := r != [], [];
      if found {
        EarlierFits(s, T, n, |r| - 1);
        out := Copied(s, T, r[|r| - 1] + n, cap);
      }
    }
  }

  /** After T advances the index drafts what the scans draft, for every history and cap. */
  method DraftsAgree(s: seq<Id>, T: nat, cap: nat) returns (gated: bool, eager: bool)
    requires T <= |s|
    ensures gated && eager
  {
    var index := new NgramIndex(s);
    for t := 0 to T
      invariant index.Valid() && index.s == s && index.T == t
    {
      index.Advance();
    }
    var p0 := index.P0(cap);
    var p1 := index.P1(cap);
    var spec := SpecDraft(s, T, cap);
    var scan := EagerScan(s, T, cap);
    gated, eager := p0 == spec, p1 == scan;
  }
}
