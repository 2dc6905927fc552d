/** The drafter that uses the automaton: the match at every position of a document, the copy
    it proposes, and the context counts of each proposed id. */
module LongestSuffixDrafts {
  import opened Substrings
  import opened SuffixAutomata

  /** One position of a document: extend, read the match, commit. */
  method MatchNext(sam: SuffixAutomaton, ids: seq<Id>, pos: nat) returns (m: Match)
    requires pos < |ids|
    requires sam.Valid() && sam.Committed() && sam.text == ids[..pos]
    modifies sam
    ensures sam.Valid() && sam.Committed() && sam.text == ids[..pos + 1]
    ensures IsLongestMatch(ids[..pos + 1], m)
  {
    assert ids[..pos] + [ids[pos]] == ids[..pos + 1];
    var v := sam.Extend(ids[pos], pos);
    m := Match(sam.length[v], sam.lastEnd[v], sam.cnt[v]);
    sam.Commit(pos);
  }

  ghost predicate MatchesOf(ids: seq<Id>, matches: seq<Match>) {
    |matches| <= |ids| && forall pos :: 0 <= pos < |matches| ==> IsLongestMatch(ids[..pos + 1], matches[pos])
  }

  lemma {:induction false} OneMoreMatch(ids: seq<Id>, matches: seq<Match>, m: Match)
    requires MatchesOf(ids, matches) && |matches| < |ids| && IsLongestMatch(ids[..|matches| + 1], m)
    ensures MatchesOf(ids, matches + [m])
  {}

  /** One pass over a document finds the longest earlier suffix at every position. */
  method MatchHistory(ids: seq<Id>) returns (matches: seq<Match>)
    ensures |matches| == |ids| && MatchesOf(ids, matches)
  {
    matches := [];
    var sam := new SuffixAutomaton();
    for pos := 0 to |ids|
      invariant sam.Valid() && sam.Committed() && sam.text == ids[..pos]
      invariant fresh(sam)
      invariant |matches| == pos && MatchesOf(ids, matches)
    {
      var m := MatchNext(sam, ids, pos);
      OneMoreMatch(ids, matches, m);
      matches := matches + [m];
    }
  }

  // ------------------------------------------------------------------ the periodic copy

  function PeriodicCopy(s: seq<Id>, start: nat, g: nat, n: nat): (d: seq<Id>)
    requires 0 < g && start + g <= |s|
    ensures |d| == n
  {
    seq(n, i requires 0 <= i < n => s[start + i % g])
  }

  /** d continues t by copying, id by id, from g positions back, over its own output if need be. */
  ghost predicate ContinuesWithPeriod(t: seq<Id>, g: nat, d: seq<Id>) {
    && 0 < g <= |t|
    && forall i :: 0 <= i < |d| ==> d[i] == (t + d)[|t| + i - g]
  }

  lemma {:induction false} PeriodicCopyContinues(t: seq<Id>, g: nat, n: nat, i: nat)
    requires 0 < g <= |t| && i < n
    ensures var d := PeriodicCopy(t, |t| - g, g, n); d[i] == (t + d)[|t| + i - g]
  {
    if g <= i {
      assert i % g == (i - g) % g by {
        ModStep(i - g, g);
      }
    } else {
      assert i % g == i;
    }
  }

  lemma {:induction false} ModStep(i: nat, g: nat)
    requires 0 < g
    ensures (i + g) % g == i % g
  {
    var q, q' := i / g, (i + g) / g;
    assert g * (q' - q - 1) == i % g - (i + g) % g;
    SmallMultiple(g, q' - q - 1);
  }

  lemma {:induction false} SmallMultiple(g: int, k: int)
    requires -g < g * k < g
    ensures k == 0
  {
    if k != 0 {
      MultipleIsLarge(g, k);
    }
  }

  lemma {:induction false} MultipleIsLarge(g: int, k: int)
    requires 0 < g && k != 0
    ensures g * k >= g || g * k <= -g
  {
    if k > 0 {
      assert g * k >= g;
    } else {
      assert g * k <= -g;
    }
  }

  /** The copy of g ids back is the one continuation with that period. */
  lemma {:induction false} PeriodicCopyIsUnique(t: seq<Id>, g: nat, d: seq<Id>)
    requires 0 < g <= |t|
    ensures ContinuesWithPeriod(t, g, d) <==> d == PeriodicCopy(t, |t| - g, g, |d|)
  {
    var e := PeriodicCopy(t, |t| - g, g, |d|);
    forall i | 0 <= i < |d|
      ensures e[i] == (t + e)[|t| + i - g]
    {
      PeriodicCopyContinues(t, g, |d|, i);
    }
    if ContinuesWithPeriod(t, g, d) {
      SamePrefix(t, g, d, e, |d|);
      assert d == d[..|d|] == e[..|d|] == e;
    }
  }

  lemma {:induction false} SamePrefix(t: seq<Id>, g: nat, d: seq<Id>, e: seq<Id>, n: nat)
    requires ContinuesWithPeriod(t, g, d) && ContinuesWithPeriod(t, g, e) && |d| == |e| && n <= |d|
    ensures d[..n] == e[..n]
  {
    if n > 0 {
      SamePrefix(t, g, d, e, n - 1);
      var k := |t| + n - 1 - g;
      assert k >= |t| ==> d[k - |t|] == d[..n - 1][k - |t|] && e[k - |t|] == e[..n - 1][k - |t|];
      assert (t + d)[k] == (t + e)[k];
      assert d[..n] == d[..n - 1] + [d[n - 1]] && e[..n] == e[..n - 1] + [e[n - 1]];
    }
  }

  /** The draft made from a match: copy from after its most recent earlier end, with the distance
      between the two ends as period. The matched suffix already has that period. */
  lemma {:induction false} DraftFollowsMatch(t: seq<Id>, m: Match, n: nat)
    requires t != [] && IsLongestMatch(t, m) && 0 < m.length
    ensures var g := |t| - 1 - m.lastEnd;
            && 0 < g && m.length <= m.lastEnd + 1 && m.lastEnd + 1 == |t| - g
            && ContinuesWithPeriod(t, g, PeriodicCopy(t, m.lastEnd + 1, g, n))
            && forall k :: |t| - m.length <= k < |t| ==> t[k] == t[k - g]
  {
    var g := |t| - 1 - m.lastEnd;
    LastEndOccurs(t, m);
    PeriodicCopyIsUnique(t, g, PeriodicCopy(t, |t| - g, g, n));
    EarlierOccurrencePeriod(t, t[|t| - m.length..], g);
  }

  lemma {:induction false} LastEndOccurs(t: seq<Id>, m: Match)
    requires t != [] && IsLongestMatch(t, m) && 0 < m.length
    ensures m.length <= m.lastEnd + 1 < |t|
    ensures OccursAt(t[..|t| - 1], t[|t| - m.length..], m.lastEnd + 1 - m.length)
  {
    var s, x := t[..|t| - 1], t[|t| - m.length..];
    assert Ends(s, x)[m.count - 1] in Ends(s, x);
    EndsMember(s, x, |s|, m.lastEnd);
  }

  lemma {:induction false} EarlierOccurrencePeriod(t: seq<Id>, x: seq<Id>, g: nat)
    requires 0 < g && |x| + g <= |t| && x == t[|t| - |x|..]
    requires OccursAt(t[..|t| - 1], x, |t| - g - |x|)
    ensures forall k :: |t| - |x| <= k < |t| ==> t[k] == t[k - g]
  {
    forall k | |t| - |x| <= k < |t|
      ensures t[k] == t[k - g]
    {
      assert x[k - (|t| - |x|)] == t[..|t| - 1][k - g];
    }
  }

  // ------------------------------------------------------------------ context counts

  ghost predicate InRange(nxt: seq<Edges>, cnt: seq<int>, w: int) {
    && |nxt| == |cnt| && -1 <= w < |nxt|
    && forall u, c :: 0 <= u < |nxt| && c in nxt[u] ==> nxt[u][c] < |nxt|
  }

  function Next(nxt: seq<Edges>, w: int, c: Id): int
    requires w < |nxt|
  {
    if w >= 0 && c in nxt[w] then nxt[w][c] else -1
  }

  /** The state reached from v along ids, -1 once an edge is missing. */
  ghost function Walk(nxt: seq<Edges>, cnt: seq<int>, v: nat, ids: seq<Id>): int
    requires InRange(nxt, cnt, v)
    ensures InRange(nxt, cnt, Walk(nxt, cnt, v, ids))
  {
    if ids == [] then v else Next(nxt, Walk(nxt, cnt, v, ids[..|ids| - 1]), ids[|ids| - 1])
  }

  function Figure(cnt: seq<int>, w: int): int
    requires w < |cnt|
  {
    if w >= 0 then cnt[w] else 0
  }

  /** The counts behind a draft's features: how often each context occurred, and how often it was
      followed by the proposed id. Absent states count zero. */
  method DraftCounts(nxt: seq<Edges>, cnt: seq<int>, v: nat, d: seq<Id>)
    returns (contexts: seq<int>, agreeing: seq<int>)
    requires InRange(nxt, cnt, v)
    ensures |contexts| == |agreeing| == |d|
    ensures forall j :: 0 <= j < |d| ==> contexts[j] == Figure(cnt, Walk(nxt, cnt, v, d[..j]))
    ensures forall j :: 0 <= j < |d| ==> agreeing[j] == Figure(cnt, Walk(nxt, cnt, v, d[..j + 1]))
  {
    contexts, agreeing := [], [];
    var w: int := v;
    for j := 0 to |d|
      invariant |contexts| == |agreeing| == j
      invariant w == Walk(nxt, cnt, v, d[..j])
      invariant forall i :: 0 <= i < j ==> contexts[i] == Figure(cnt, Walk(nxt, cnt, v, d[..i]))
      invariant forall i :: 0 <= i < j ==> agreeing[i] == Figure(cnt, Walk(nxt, cnt, v, d[..i + 1]))
    {
      assert d[..j + 1][..j] == d[..j];
      var n, k, next := 0, 0, -1;
      if w >= 0 {
        n := cnt[w];
        next := Next(nxt, w, d[j]);
        k := Figure(cnt, next);
      }
      contexts, agreeing := contexts + [n], agreeing + [k];
      w := next;
    }
  }

  /** Read between extend and commit from the matched state v, the counts are exact: a proposed id's
      count, and that of every later context, is the number of occurrences in the whole text of the
      matched suffix with the draft up to there. */
  lemma {:induction false} DraftCountsAreOccurrences(sam: SuffixAutomaton, v: nat, d: seq<Id>)
    requires Drafting(sam, v) && d != []
    ensures InRange(sam.nxt, sam.cnt, v)
    ensures Figure(sam.cnt, Walk(sam.nxt, sam.cnt, v, d)) == |Ends(sam.text, sam.words[v] + d)|
  {
    EdgesInRange(sam, v);
    MatchedState(sam, v);
    WalkFollowsContexts(sam, v, d);
    LongerCounts(sam, v, sam.words[v] + d, Walk(sam.nxt, sam.cnt, v, d));
  }

  /** sam was just extended, and v is the state that extend returned. */
  ghost predicate Drafting(sam: SuffixAutomaton, v: nat)
    reads sam
  {
    && sam.Valid() && sam.Extended() && 0 < v < |sam.words| && v != sam.last && v == sam.link[sam.last]
    && IsLongestMatch(sam.text, Match(sam.length[v], sam.lastEnd[v], sam.cnt[v]))
  }

  lemma {:induction false} EdgesInRange(sam: SuffixAutomaton, w: int)
    requires sam.Valid() && -1 <= w < |sam.words|
    ensures InRange(sam.nxt, sam.cnt, w)
  {
    forall u, c | 0 <= u < |sam.nxt| && c in sam.nxt[u]
      ensures sam.nxt[u][c] < |sam.nxt|
    {
      assert EdgeOf(sam.text, sam.words, sam.words[u], c, sam.nxt[u]);
    }
  }

  lemma {:induction false} WalkFollowsContexts(sam: SuffixAutomaton, v: nat, d: seq<Id>)
    requires sam.Valid() && v < |sam.words| && InRange(sam.nxt, sam.cnt, v)
    requires AtContext(sam, sam.words[v] + [], v)
    ensures AtContext(sam, sam.words[v] + d, Walk(sam.nxt, sam.cnt, v, d))
  {
    if d != [] {
      var e := d[..|d| - 1];
      WalkFollowsContexts(sam, v, e);
      FollowEdge(sam, sam.words[v] + e, d[|d| - 1], Walk(sam.nxt, sam.cnt, v, e), Walk(sam.nxt, sam.cnt, v, d));
      assert (sam.words[v] + e) + [d[|d| - 1]] == sam.words[v] + d;
    }
  }

  /** w is the state of x's class, or -1 when x does not occur. */
  ghost predicate AtContext(sam: SuffixAutomaton, x: seq<Id>, w: int)
    requires sam.Valid()
    reads sam
  {
    -1 <= w < |sam.words| && if w == -1 then !Occurs(sam.text, x) else Shortest(sam.text, x, sam.words[w])
  }

  /** The first context is the matched suffix itself, counted before the newest id. */
  lemma {:induction false} MatchedState(sam: SuffixAutomaton, v: nat)
    requires Drafting(sam, v)
    ensures AtContext(sam, sam.words[v] + [], v)
    ensures var s := sam.text[..|sam.text| - 1];
            LongestOld(s, sam.text[|sam.text| - 1], sam.words[v]) && sam.cnt[v] == |Ends(s, sam.words[v])|
  {
    var t, z := sam.text, sam.words[v];
    assert LinksTo(sam.words, sam.last, v);
    assert t[|t| - |z|..] == z;
    assert z + [] == z;
    assert Maximal(t, z) && IsSuffix(z, z);
  }

  lemma {:induction false} FollowEdge(sam: SuffixAutomaton, x: seq<Id>, d: Id, w: int, next: int)
    requires sam.Valid() && AtContext(sam, x, w)
    requires next == Next(sam.nxt, w, d)
    ensures AtContext(sam, x + [d], next)
  {
    var t := sam.text;
    if w == -1 {
      if Occurs(t, x + [d]) {
        OccursPrefix(t, x, d);
      }
    } else {
      assert EdgeOf(t, sam.words, sam.words[w], d, sam.nxt[w]);
      ClassContinues(t, x, sam.words[w], d);
      if next != -1 {
        ClassContinuesTo(t, x, sam.words[w], d, sam.words[next]);
      }
    }
  }

  /** Before the commit, the figure of a context longer than the match is already the count over
      the whole text. */
  lemma {:induction false} LongerCounts(sam: SuffixAutomaton, v: nat, x: seq<Id>, w: int)
    requires sam.Valid() && sam.Extended() && v < |sam.words| && AtContext(sam, x, w) && |sam.words[v]| < |x|
    requires LongestOld(sam.text[..|sam.text| - 1], sam.text[|sam.text| - 1], sam.words[v])
    ensures Figure(sam.cnt, w) == |Ends(sam.text, x)|
  {
    var t := sam.text;
    var s, c := t[..|t| - 1], t[|t| - 1];
    assert t == s + [c];
    if w == -1 {
      EndsOccur(t, x);
    } else {
      var y := sam.words[w];
      EndsOfClass(t, x, y);
      if w == sam.last {
        EndsOfWhole(t);
      } else {
        assert y != [];
        EndsOccur(s, y);
        EndsAppend(s, c, y);
        assert |y| > |sam.words[v]|;
      }
    }
  }
}
