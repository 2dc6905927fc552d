/** Replaying a document's turns against a drafter: the draft points and what is left of the turn at each,
    the part of each draft that agrees with the document, and the points a run visits. */
module TurnReplays {
  import opened Numbers

  type Id = int

  /** A turn of model output: from its first id to just after its last. */
  type Segment = (nat, nat)

  // ------------------------------------------------------------------ draft points

  /** Turns inside the document, in any order; a later one may lie over an earlier one. */
  ghost predicate Inside(segments: seq<Segment>, n: nat) {
    forall i :: 0 <= i < |segments| ==> segments[i].1 <= n
  }

  /** Turns in order, apart, and inside the document. */
  ghost predicate Segmented(segments: seq<Segment>, n: nat) {
    && (forall i :: 0 <= i < |segments| ==> segments[i].0 <= segments[i].1 <= n)
    && forall i, j :: 0 <= i < j < |segments| ==> segments[i].1 <= segments[j].0
  }

  /** The first id of a turn comes out of the prefill pass; the others are draft points. */
  predicate DraftsIn(segment: Segment, T: nat) {
    segment.0 < T < segment.1
  }

  /** The end of the turn that position T is a draft point of, or zero. */
  ghost function EndAt(segments: seq<Segment>, T: nat): nat {
    if segments == [] then 0
    else
      var last := segments[|segments| - 1];
      if DraftsIn(last, T) then last.1 else EndAt(segments[..|segments| - 1], T)
  }

  lemma {:induction false} EndIsTurn(segments: seq<Segment>, T: nat)
    ensures EndAt(segments, T) > 0 <==> exists i :: 0 <= i < |segments| && DraftsIn(segments[i], T)
    ensures EndAt(segments, T) > 0 ==>
              exists i :: 0 <= i < |segments| && DraftsIn(segments[i], T) && segments[i].1 == EndAt(segments, T)
  {
    if segments != [] {
      var front := segments[..|segments| - 1];
      EndIsTurn(front, T);
      if i :| 0 <= i < |front| && DraftsIn(front[i], T) {
        assert DraftsIn(segments[i], T);
      }
      if !DraftsIn(segments[|segments| - 1], T) && EndAt(front, T) > 0 {
        var i :| 0 <= i < |front| && DraftsIn(front[i], T) && front[i].1 == EndAt(front, T);
        assert segments[i] == front[i];
      }
    }
  }

  /** T is a draft point of turn i, and of no later one. */
  ghost predicate LastTurnAt(segments: seq<Segment>, T: nat, i: nat) {
    i < |segments| && DraftsIn(segments[i], T) && forall k :: i < k < |segments| ==> !DraftsIn(segments[k], T)
  }

  lemma {:induction false} EndIsLastTurn(segments: seq<Segment>, T: nat) returns (i: nat)
    requires EndAt(segments, T) > 0
    ensures LastTurnAt(segments, T, i) && segments[i].1 == EndAt(segments, T)
  {
    var front := segments[..|segments| - 1];
    i := |front|;
    if !DraftsIn(segments[i], T) {
      i := EndIsLastTurn(front, T);
      assert segments[i] == front[i];
      forall k | i < k < |segments|
        ensures !DraftsIn(segments[k], T)
      {
        assert k < |front| ==> segments[k] == front[k];
      }
    }
  }

  /** A draft point that is not the last of its turn is followed by another. */
  lemma {:induction false} TurnContinues(segments: seq<Segment>, n: nat, T: nat)
    requires Segmented(segments, n) && T + 1 < EndAt(segments, T)
    ensures EndAt(segments, T + 1) == EndAt(segments, T)
  {
    var front, last := segments[..|segments| - 1], segments[|segments| - 1];
    if !DraftsIn(last, T) {
      EndIsTurn(front, T);
      var i :| 0 <= i < |front| && DraftsIn(front[i], T) && front[i].1 == EndAt(front, T);
      assert segments[i].1 <= last.0;
      TurnContinues(front, n, T);
    }
  }

  lemma {:induction false} EndInDocument(segments: seq<Segment>, n: nat, T: nat)
    requires Inside(segments, n)
    ensures EndAt(segments, T) > 0 ==> T < EndAt(segments, T) <= n
  {
    EndIsTurn(segments, T);
  }

  /** Every position's turn end, filled turn by turn. */
  method TurnEnds(segments: seq<Segment>, n: nat) returns (ends: array<nat>)
    requires Inside(segments, n)
    ensures fresh(ends) && ends.Length == n + 1 && forall T :: 0 <= T <= n ==> ends[T] == EndAt(segments, T)
  {
    ends := new nat[n + 1](_ => 0);
    for k := 0 to |segments|
      invariant forall T :: 0 <= T <= n ==> ends[T] == EndAt(segments[..k], T)
    {
      var (from, to) := segments[k];
      assert segments[..k + 1][..k] == segments[..k];
      for at := from + 1 to (if from < to then to else from + 1)
        invariant forall T :: 0 <= T <= n ==>
                    ends[T] == if from < T < at then to else EndAt(segments[..k], T)
      {
        ends[at] := to;
      }
    }
    assert segments[..|segments|] == segments;
  }

  // ------------------------------------------------------------------ the agreeing part of a draft

  /** The longest part of a draft that the document has at T, within r ids. */
  ghost predicate IsAgreement(ids: seq<Id>, T: nat, d: seq<Id>, r: nat, m: nat)
    requires T + r <= |ids|
  {
    && m <= Min(|d|, r) && d[..m] == ids[T..T + m]
    && (m < Min(|d|, r) ==> ids[T + m] != d[m])
  }

  method CommonPrefix(d: seq<Id>, ids: seq<Id>, T: nat, r: nat) returns (m: nat)
    requires T + r <= |ids|
    ensures IsAgreement(ids, T, d, r, m)
  {
    m := 0;
    var limit := Min(|d|, r);
    while m < limit && ids[T + m] == d[m]
      invariant m <= limit && d[..m] == ids[T..T + m]
    {
      m := m + 1;
    }
  }

  /** A shorter draft agrees as far as the longer one does, or throughout. */
  lemma {:induction false} ShorterDraftAgrees(ids: seq<Id>, T: nat, d: seq<Id>, r: nat, m: nat, cap: nat)
    requires T + r <= |ids| && IsAgreement(ids, T, d, r, m) && cap <= |d|
    ensures IsAgreement(ids, T, d[..cap], r, Min(m, cap))
  {
    var k := Min(m, cap);
    assert d[..cap][..k] == d[..m][..k] && ids[T..T + k] == ids[T..T + m][..k];
  }

  // ------------------------------------------------------------------ one pass over a document

  /** A policy drafts from the history. */
  type Drafter = seq<Id> -> seq<Id>

  /** What a pass records at the draft points, in order. */
  datatype Points = Points(at: seq<nat>, rem: seq<nat>, drafted: seq<nat>, agreeing: seq<nat>)

  ghost predicate PointIs(p: Points, i: nat, ids: seq<Id>, segments: seq<Segment>, draft: Drafter) {
    && i < |p.at| == |p.rem| == |p.drafted| == |p.agreeing|
    && EndAt(segments, p.at[i]) == p.at[i] + p.rem[i] <= |ids| && p.rem[i] > 0
    && var d := draft(ids[..p.at[i]]);
       p.drafted[i] == |d| && IsAgreement(ids, p.at[i], d, p.rem[i], p.agreeing[i])
  }

  /** The points are the draft points up to a position, in order, with their figures. */
  ghost predicate Analyzed(p: Points, upto: nat, ids: seq<Id>, segments: seq<Segment>, draft: Drafter) {
    && |p.at| == |p.rem| == |p.drafted| == |p.agreeing|
    && (forall i: nat :: i < |p.at| ==> PointIs(p, i, ids, segments, draft) && p.at[i] <= upto)
    && (forall i, j :: 0 <= i < j < |p.at| ==> p.at[i] < p.at[j])
    && (forall T: nat :: T <= upto && EndAt(segments, T) > 0 ==> T in p.at)
  }

  /** Ids left in the turn at each draft point: they count down to one within a turn, and the points of the
      next turn follow. */
  ghost predicate CountsDown(rem: seq<nat>) {
    && (forall t :: 0 <= t < |rem| ==> rem[t] >= 1)
    && (forall t: nat :: t < |rem| ==> TurnGoesOn(rem, t))
  }

  ghost predicate TurnGoesOn(rem: seq<nat>, t: nat)
    requires t < |rem|
  {
    rem[t] > 1 ==> t + 1 < |rem| && rem[t + 1] == rem[t] - 1
  }

  /** Up to a position it counts down, and goes on if the turn does. */
  ghost predicate CountsSoFar(p: Points, upto: nat)
    requires |p.at| == |p.rem|
  {
    && (forall i: nat :: i + 1 < |p.rem| ==> TurnGoesOn(p.rem, i))
    && (p.rem != [] && p.rem[|p.rem| - 1] > 1 ==> p.at[|p.at| - 1] == upto)
  }

  lemma {:induction false} PushPoint(p: Points, q: Points, T: nat, e: nat, d: seq<Id>, m: nat, ids: seq<Id>,
                                     segments: seq<Segment>, draft: Drafter)
    requires T > 0 && Analyzed(p, T - 1, ids, segments, draft)
    requires T < e == EndAt(segments, T) <= |ids| && d == draft(ids[..T]) && IsAgreement(ids, T, d, e - T, m)
    requires q == Points(p.at + [T], p.rem + [e - T], p.drafted + [|d|], p.agreeing + [m])
    ensures Analyzed(q, T, ids, segments, draft)
  {
    forall i: nat | i < |q.at|
      ensures PointIs(q, i, ids, segments, draft) && q.at[i] <= T
    {
      assert i < |p.at| ==> PointIs(p, i, ids, segments, draft);
    }
    forall u: nat | u <= T && EndAt(segments, u) > 0
      ensures u in q.at
    {
      assert u == T ==> q.at[|p.at|] == u;
    }
  }

  /** A turn that has ids left after its latest point has this position as the next. */
  ghost predicate GoesOn(p: Points, T: nat, e: nat)
    requires |p.at| == |p.rem|
  {
    p.rem != [] && p.rem[|p.rem| - 1] > 1 ==> e > T && p.rem[|p.rem| - 1] == e - T + 1
  }

  lemma {:induction false} TurnGoesOnAt(p: Points, T: nat, ids: seq<Id>, segments: seq<Segment>, draft: Drafter)
    requires Segmented(segments, |ids|) && T > 0 && Analyzed(p, T - 1, ids, segments, draft) && CountsSoFar(p, T - 1)
    ensures GoesOn(p, T, EndAt(segments, T))
  {
    if p.rem != [] && p.rem[|p.rem| - 1] > 1 {
      assert PointIs(p, |p.at| - 1, ids, segments, draft);
      TurnContinues(segments, |ids|, T - 1);
    }
  }

  lemma {:induction false} PushCounts(p: Points, q: Points, T: nat, e: nat)
    requires |p.at| == |p.rem| && T > 0 && CountsSoFar(p, T - 1) && GoesOn(p, T, e)
    requires T < e && q.at == p.at + [T] && q.rem == p.rem + [e - T]
    ensures CountsSoFar(q, T)
  {
    forall i: nat | i + 1 < |q.rem|
      ensures TurnGoesOn(q.rem, i)
    {
      assert i + 1 < |p.rem| ==> TurnGoesOn(p.rem, i);
    }
  }

  lemma {:induction false} SkipPoint(p: Points, T: nat, ids: seq<Id>, segments: seq<Segment>, draft: Drafter)
    requires T > 0 && Analyzed(p, T - 1, ids, segments, draft) && EndAt(segments, T) == 0
    ensures Analyzed(p, T, ids, segments, draft)
    ensures CountsSoFar(p, T - 1) && GoesOn(p, T, 0) ==> CountsSoFar(p, T)
  {
    forall u: nat | u <= T && EndAt(segments, u) > 0
      ensures u in p.at
    {
      assert u != T;
    }
  }

  lemma {:induction false} AllCounted(p: Points, ids: seq<Id>, segments: seq<Segment>, draft: Drafter)
    requires Segmented(segments, |ids|) && Analyzed(p, |ids|, ids, segments, draft) && CountsSoFar(p, |ids|)
    ensures CountsDown(p.rem)
  {
    forall t | 0 <= t < |p.rem|
      ensures p.rem[t] >= 1
    {
      assert PointIs(p, t, ids, segments, draft);
    }
    forall t: nat | t < |p.rem|
      ensures TurnGoesOn(p.rem, t)
    {
      if t + 1 == |p.rem| {
        assert PointIs(p, t, ids, segments, draft);
      }
    }
  }

  lemma {:induction false} NoPointAtStart(segments: seq<Segment>)
    ensures EndAt(segments, 0) == 0
  {
    EndIsTurn(segments, 0);
  }

  /** One position: recorded when it is a draft point. */
  method AnalyzeAt(p: Points, T: nat, e: nat, ids: seq<Id>, ghost segments: seq<Segment>, draft: Drafter)
    returns (q: Points)
    requires Inside(segments, |ids|) && 0 < T <= |ids| && e == EndAt(segments, T)
    requires Analyzed(p, T - 1, ids, segments, draft)
    ensures Analyzed(q, T, ids, segments, draft)
    ensures Segmented(segments, |ids|) && CountsSoFar(p, T - 1) ==> CountsSoFar(q, T)
  {
    if Segmented(segments, |ids|) && CountsSoFar(p, T - 1) {
      TurnGoesOnAt(p, T, ids, segments, draft);
    }
    if e == 0 {
      SkipPoint(p, T, ids, segments, draft);
      return p;
    }
    EndInDocument(segments, |ids|, T);
    var d := draft(ids[..T]);
    var m := CommonPrefix(d, ids, T, e - T);
    q := Points(p.at + [T], p.rem + [e - T], p.drafted + [|d|], p.agreeing + [m]);
    PushPoint(p, q, T, e, d, m, ids, segments, draft);
    if Segmented(segments, |ids|) && CountsSoFar(p, T - 1) {
      PushCounts(p, q, T, e);
    }
  }

  /** The points, in terms of the turns alone: they are the positions inside turns after their first, each with
      what is left of the last turn it lies in. */
  ghost predicate PointsOfTurns(p: Points, n: nat, segments: seq<Segment>) {
    && |p.at| == |p.rem|
    && (forall i: nat :: i < |p.at| ==> PointOfTurn(p, segments, i))
    && (forall T: nat, k: nat :: T <= n && k < |segments| && DraftsIn(segments[k], T) ==> T in p.at)
  }

  ghost predicate PointOfTurn(p: Points, segments: seq<Segment>, i: nat)
    requires i < |p.at| && i < |p.rem|
  {
    exists k: nat :: LastTurnAt(segments, p.at[i], k) && p.at[i] + p.rem[i] == segments[k].1
  }

  lemma {:induction false} AnalyzedTurns(p: Points, ids: seq<Id>, segments: seq<Segment>, draft: Drafter)
    requires Analyzed(p, |ids|, ids, segments, draft)
    ensures PointsOfTurns(p, |ids|, segments)
  {
    forall i: nat | i < |p.at|
      ensures PointOfTurn(p, segments, i)
    {
      assert PointIs(p, i, ids, segments, draft);
      var k := EndIsLastTurn(segments, p.at[i]);
    }
    forall T: nat, k: nat | T <= |ids| && k < |segments| && DraftsIn(segments[k], T)
      ensures T in p.at
    {
      EndIsTurn(segments, T);
    }
  }

  /** One pass over a document: the draft points are those of its turns, each with the ids left in its
      turn, the length of the draft made from the history, and how much of it the document agrees with. */
  method Analyze(ids: seq<Id>, segments: seq<Segment>, draft: Drafter) returns (p: Points)
    requires Inside(segments, |ids|)
    ensures Analyzed(p, |ids|, ids, segments, draft) && PointsOfTurns(p, |ids|, segments)
    ensures Segmented(segments, |ids|) ==> CountsDown(p.rem)
  {
    var ends := TurnEnds(segments, |ids|);
    p := Points([], [], [], []);
    NoPointAtStart(segments);
    for pos := 0 to |ids|
      invariant forall T :: 0 <= T <= |ids| ==> ends[T] == EndAt(segments, T)
      invariant Analyzed(p, pos, ids, segments, draft) && (Segmented(segments, |ids|) ==> CountsSoFar(p, pos))
    {
      p := AnalyzeAt(p, pos + 1, ends[pos + 1], ids, segments, draft);
    }
    AnalyzedTurns(p, ids, segments, draft);
    if Segmented(segments, |ids|) {
      AllCounted(p, ids, segments, draft);
    }
  }

  // ------------------------------------------------------------------ the run

  /** Ids emitted from a draft point: the accepted part of the draft and one more, within the turn. */
  function Emitted(drafted: nat, agreeing: nat, rem: nat): nat {
    Min(Min(agreeing, drafted) + 1, rem)
  }

  /** From every point at least one id and at most the rest of the turn. */
  ghost predicate StaysInTurn(emit: seq<nat>, rem: seq<nat>) {
    |emit| == |rem| && forall t :: 0 <= t < |rem| ==> 1 <= emit[t] <= rem[t]
  }

  lemma {:induction false} EveryPolicyStaysInTurn(drafted: seq<nat>, agreeing: seq<nat>, rem: seq<nat>, emit: seq<nat>)
    requires |drafted| == |agreeing| == |rem| == |emit| && forall t :: 0 <= t < |rem| ==> rem[t] >= 1
    requires forall t :: 0 <= t < |rem| ==> emit[t] == Emitted(drafted[t], agreeing[t], rem[t])
    ensures StaysInTurn(emit, rem)
  {}

  /** The turn of point t lasts rem[t] points. */
  lemma {:induction false} TurnLasts(rem: seq<nat>, t: nat, k: nat)
    requires CountsDown(rem) && t < |rem| && k < rem[t]
    ensures t + k < |rem| && rem[t + k] == rem[t] - k
  {
    if k > 0 {
      TurnLasts(rem, t, k - 1);
      assert TurnGoesOn(rem, t + (k - 1));
    }
  }

  ghost function SumAt(emit: seq<nat>, points: seq<nat>): nat
    requires forall i :: 0 <= i < |points| ==> points[i] < |emit|
  {
    if points == [] then 0 else SumAt(emit, points[..|points| - 1]) + emit[points[|points| - 1]]
  }

  /** A turn starts at the first point and after each point with one id left. */
  ghost predicate StartsTurn(rem: seq<nat>, t: nat) {
    t == 0 || (0 < t <= |rem| && rem[t - 1] == 1)
  }

  /** Points visited before t, where t was reached by jumps that each stay in their turn: every turn start
      up to t was visited or is t, and t points' worth of ids were emitted. */
  ghost predicate Visited(emit: seq<nat>, rem: seq<nat>, points: seq<nat>, t: nat) {
    && (forall i :: 0 <= i < |points| ==> points[i] < |emit| && points[i] < t)
    && SumAt(emit, points) == t
    && (forall u: nat :: u < t && StartsTurn(rem, u) ==> u in points)
  }

  lemma {:induction false} JumpStaysInTurn(emit: seq<nat>, rem: seq<nat>, points: seq<nat>, t: nat)
    requires CountsDown(rem) && StaysInTurn(emit, rem) && t < |rem| && Visited(emit, rem, points, t)
    ensures t + emit[t] <= |rem| && Visited(emit, rem, points + [t], t + emit[t])
  {
    TurnLasts(rem, t, emit[t] - 1);
    var more := points + [t];
    assert more[..|more| - 1] == points;
    forall u: nat | u < t + emit[t] && StartsTurn(rem, u)
      ensures u in more
    {
      if t < u {
        TurnLasts(rem, t, u - 1 - t);
        assert false;
      }
    }
  }

  /** The points visited: from the first, each is left by what is emitted from it, until none is left. */
  ghost predicate IsOrbit(emit: seq<nat>, out: seq<nat>) {
    && (out == [] <==> emit == [])
    && (out != [] ==> out[0] == 0)
    && (forall i :: 0 <= i < |out| ==> out[i] < |emit|)
    && (forall i: nat :: i < |out| ==> (if i + 1 < |out| then Jumps(emit, out, i) else LeavesAll(emit, out[i])))
  }

  ghost predicate Jumps(emit: seq<nat>, out: seq<nat>, i: nat)
    requires i + 1 < |out| && out[i] < |emit|
  {
    out[i + 1] == out[i] + emit[out[i]]
  }

  ghost predicate LeavesAll(emit: seq<nat>, t: nat)
    requires t < |emit|
  {
    t + emit[t] >= |emit|
  }

  lemma {:induction false} OrbitVisits(emit: seq<nat>, rem: seq<nat>, out: seq<nat>, k: nat)
    requires IsOrbit(emit, out) && CountsDown(rem) && StaysInTurn(emit, rem) && k < |out|
    ensures Visited(emit, rem, out[..k], out[k])
  {
    if k == 0 {
      assert out[..0] == [];
    } else {
      OrbitVisits(emit, rem, out, k - 1);
      assert Jumps(emit, out, k - 1);
      VisitNext(emit, rem, out, k - 1, out[k]);
    }
  }

  lemma {:induction false} VisitNext(emit: seq<nat>, rem: seq<nat>, out: seq<nat>, k: nat, t: nat)
    requires CountsDown(rem) && StaysInTurn(emit, rem) && k < |out| && out[k] < |rem|
    requires Visited(emit, rem, out[..k], out[k]) && t == out[k] + emit[out[k]]
    ensures t <= |rem| && Visited(emit, rem, out[..k + 1], t)
  {
    JumpStaysInTurn(emit, rem, out[..k], out[k]);
    assert out[..k + 1] == out[..k] + [out[k]];
  }

  /** The run starts at every turn's first draft point, never leaves a turn, and emits one id for each
      draft point in all. */
  ghost predicate RunsThroughTurns(emit: seq<nat>, rem: seq<nat>, out: seq<nat>)
    requires |emit| == |rem|
  {
    && (forall i :: 0 <= i < |out| ==> out[i] < |emit| && out[i] + emit[out[i]] <= out[i] + rem[out[i]] <= |emit|)
    && SumAt(emit, out) == |emit|
    && (forall u: nat :: u < |emit| && StartsTurn(rem, u) ==> u in out)
  }

  /** Of turns that count down, the run starts at every turn's first point, so no jump crosses the end of a
      turn, and it emits exactly one id for each draft point, whatever the policy. */
  lemma {:induction false} OrbitKeepsTurns(emit: seq<nat>, rem: seq<nat>, out: seq<nat>)
    requires IsOrbit(emit, out) && CountsDown(rem) && StaysInTurn(emit, rem)
    ensures RunsThroughTurns(emit, rem, out)
  {
    if out != [] {
      var k := |out| - 1;
      OrbitVisits(emit, rem, out, k);
      assert LeavesAll(emit, out[k]);
      VisitNext(emit, rem, out, k, out[k] + emit[out[k]]);
      assert out[..k + 1] == out;
    }
    forall i | 0 <= i < |out|
      ensures out[i] + rem[out[i]] <= |emit|
    {
      TurnLasts(rem, out[i], rem[out[i]] - 1);
    }
  }

  lemma {:induction false} OneMoreJump(emit: seq<nat>, out: seq<nat>, t: nat)
    requires (forall i :: 0 <= i < |out| ==> out[i] < |emit|) && t < |emit|
    requires forall i: nat :: i + 1 < |out| ==> Jumps(emit, out, i)
    requires out != [] ==> t == out[|out| - 1] + emit[out[|out| - 1]]
    ensures forall i: nat :: i + 1 < |out + [t]| ==> Jumps(emit, out + [t], i)
  {
    var more := out + [t];
    forall i: nat | i + 1 < |more|
      ensures Jumps(emit, more, i)
    {
      assert i + 1 < |out| ==> Jumps(emit, out, i);
    }
  }

  /** The draft points a run visits. */
  method Orbit(emit: seq<nat>) returns (out: seq<nat>)
    requires forall t :: 0 <= t < |emit| ==> emit[t] >= 1
    ensures IsOrbit(emit, out)
  {
    out := [];
    var t := 0;
    while t < |emit|
      invariant forall i :: 0 <= i < |out| ==> out[i] < |emit|
      invariant out == [] ==> t == 0
      invariant out != [] ==> out[0] == 0 && t == out[|out| - 1] + emit[out[|out| - 1]]
      invariant forall i: nat :: i + 1 < |out| ==> Jumps(emit, out, i)
      decreases |emit| - t
    {
      OneMoreJump(emit, out, t);
      out := out + [t];
      t := t + emit[t];
    }
  }

  /** The document's ids from a visited point on: the accepted part of the draft, and one more. */
  ghost predicate EmitsDocument(p: Points, emit: seq<nat>, i: nat, ids: seq<Id>, draft: Drafter)
    requires i < |p.at| && i < |emit|
  {
    && p.at[i] + emit[i] <= |ids| && emit[i] > 0 && emit[i] - 1 <= |draft(ids[..p.at[i]])|
    && draft(ids[..p.at[i]])[..emit[i] - 1] == ids[p.at[i]..p.at[i] + emit[i] - 1]
  }

  lemma {:induction false} EmitsAgreed(p: Points, cap: nat, emit: seq<nat>, i: nat, ids: seq<Id>,
                                       segments: seq<Segment>, draft: Drafter)
    requires PointIs(p, i, ids, segments, draft) && |emit| == |p.at|
    requires emit[i] == Emitted(Min(cap, p.drafted[i]), p.agreeing[i], p.rem[i])
    ensures EmitsDocument(p, emit, i, ids, draft)
  {
    var d, T, k := draft(ids[..p.at[i]]), p.at[i], emit[i] - 1;
    assert d[..k] == d[..p.agreeing[i]][..k] && ids[T..T + k] == ids[T..T + p.agreeing[i]][..k];
  }

  /** k ids can be emitted at T: one more than a part of the draft, of at most cap ids, that the document has
      there, and no more than are left in the turn. */
  ghost predicate CanEmit(ids: seq<Id>, T: nat, d: seq<Id>, cap: nat, rem: nat, k: nat)
    requires T + rem <= |ids|
  {
    1 <= k <= rem && k - 1 <= cap && k - 1 <= |d| && d[..k - 1] == ids[T..T + k - 1]
  }

  /** e is the greatest number that can be emitted: short of the turn's end, either the whole capped draft is
      accepted or the document differs from its next id. */
  ghost predicate EmitsMost(ids: seq<Id>, T: nat, d: seq<Id>, cap: nat, rem: nat, e: nat)
    requires T + rem <= |ids|
  {
    && CanEmit(ids, T, d, cap, rem, e) && (forall k: nat :: CanEmit(ids, T, d, cap, rem, k) ==> k <= e)
    && (e < rem ==> e - 1 == cap || e - 1 == |d| || ids[T + e - 1] != d[e - 1])
  }

  lemma {:induction false} SliceAgrees(d: seq<Id>, ids: seq<Id>, T: nat, n: nat)
    requires n <= |d| && T + n <= |ids| && d[..n] == ids[T..T + n]
    ensures forall i :: 0 <= i < n ==> d[i] == ids[T + i]
  {
    forall i | 0 <= i < n
      ensures d[i] == ids[T + i]
    {
      assert d[..n][i] == ids[T..T + n][i];
    }
  }

  lemma {:induction false} EmittedIsMost(ids: seq<Id>, T: nat, d: seq<Id>, cap: nat, rem: nat, m: nat)
    requires T + rem <= |ids| && rem > 0 && IsAgreement(ids, T, d, rem, m)
    ensures EmitsMost(ids, T, d, cap, rem, Emitted(Min(cap, |d|), m, rem))
  {
    var e := Emitted(Min(cap, |d|), m, rem);
    assert d[..e - 1] == d[..m][..e - 1] && ids[T..T + e - 1] == ids[T..T + m][..e - 1];
    forall k: nat | CanEmit(ids, T, d, cap, rem, k)
      ensures k <= e
    {
      SliceAgrees(d, ids, T, k - 1);
    }
  }

  ghost predicate EmitsMostAt(p: Points, emit: seq<nat>, i: nat, ids: seq<Id>, draft: Drafter, cap: nat)
    requires i < |p.at| && i < |p.rem| && i < |emit|
  {
    p.at[i] + p.rem[i] <= |ids| && EmitsMost(ids, p.at[i], draft(ids[..p.at[i]]), cap, p.rem[i], emit[i])
  }

  /** Replay a policy with drafts of at most cap ids: what it emits at every draft point is the document, and
      as much of it as the draft allows. Of turns that are in order and apart, the run starts at every turn's
      first draft point, never leaves a turn, and emits one id for each draft point in all. */
  method Replay(ids: seq<Id>, segments: seq<Segment>, draft: Drafter, cap: nat)
    returns (p: Points, emit: seq<nat>, out: seq<nat>)
    requires Inside(segments, |ids|)
    ensures Analyzed(p, |ids|, ids, segments, draft) && |emit| == |p.at| && StaysInTurn(emit, p.rem)
    ensures forall i: nat :: i < |emit| ==> EmitsDocument(p, emit, i, ids, draft)
    ensures forall i: nat :: i < |emit| ==> EmitsMostAt(p, emit, i, ids, draft, cap)
    ensures IsOrbit(emit, out)
    ensures Segmented(segments, |ids|) ==> CountsDown(p.rem) && RunsThroughTurns(emit, p.rem, out)
  {
    p := Analyze(ids, segments, draft);
    var points := p;
    emit := seq(|points.at|, i requires 0 <= i < |points.at| =>
                  Emitted(Min(cap, points.drafted[i]), points.agreeing[i], points.rem[i]));
    forall i: nat | i < |emit|
      ensures p.rem[i] >= 1 && EmitsDocument(p, emit, i, ids, draft) && EmitsMostAt(p, emit, i, ids, draft, cap)
    {
      assert PointIs(p, i, ids, segments, draft);
      EmittedIsMost(ids, p.at[i], draft(ids[..p.at[i]]), cap, p.rem[i], p.agreeing[i]);
      EmitsAgreed(p, cap, emit, i, ids, segments, draft);
    }
    EveryPolicyStaysInTurn(seq(|emit|, i requires 0 <= i < |emit| => Min(cap, points.drafted[i])), p.agreeing, p.rem,
                           emit);
    out := Orbit(emit);
    if Segmented(segments, |ids|) {
      OrbitKeepsTurns(emit, p.rem, out);
    }
  }
}
