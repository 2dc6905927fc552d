/** Speculative decoding with a deterministic oracle: verification of a draft and Jacobi rounds reproduce
    greedy decoding. */
module Lookahead {
  type Id = int
  type Oracle = seq<Id> -> Id

  // ------------------------------------------------------------------ greedy decoding

  /** The first k ids that greedy decoding appends. */
  ghost function Greedy(next: Oracle, prefix: seq<Id>, k: nat): (g: seq<Id>)
    ensures |g| == k
  {
    if k == 0 then [] else
      var g := Greedy(next, prefix, k - 1);
      g + [next(prefix + g)]
  }

  lemma {:induction false} GreedyPrefix(next: Oracle, prefix: seq<Id>, j: nat, k: nat)
    requires j <= k
    ensures Greedy(next, prefix, k)[..j] == Greedy(next, prefix, j)
    decreases k
  {
    if j < k {
      GreedyPrefix(next, prefix, j, k - 1);
      assert Greedy(next, prefix, k)[..j] == Greedy(next, prefix, k - 1)[..j];
    }
  }

  /** How many ids of a draft greedy decoding would have produced, from the left. */
  ghost function Matching(next: Oracle, prefix: seq<Id>, draft: seq<Id>, i: nat): (m: nat)
    requires i <= |draft|
    ensures i <= m <= |draft|
    decreases |draft| - i
  {
    if i < |draft| && draft[i] == Greedy(next, prefix, i + 1)[i] then Matching(next, prefix, draft, i + 1) else i
  }

  /** The matched part is greedy, and it is the longest such part. */
  lemma {:induction false} MatchingIsLongest(next: Oracle, prefix: seq<Id>, draft: seq<Id>, i: nat)
    requires i <= |draft| && draft[..i] == Greedy(next, prefix, i)
    ensures var m := Matching(next, prefix, draft, i);
            draft[..m] == Greedy(next, prefix, m) && (m < |draft| ==> draft[m] != Greedy(next, prefix, m + 1)[m])
    decreases |draft| - i
  {
    if i < |draft| && draft[i] == Greedy(next, prefix, i + 1)[i] {
      assert draft[..i + 1] == draft[..i] + [draft[i]];
      MatchingIsLongest(next, prefix, draft, i + 1);
    }
  }

  /** Emit the matching drafts and the first correction or bonus id: the greedy continuation, one longer
      than the part of the draft that agrees with it. */
  method VerifyPrefix(next: Oracle, prefix: seq<Id>, draft: seq<Id>) returns (out: seq<Id>)
    ensures out == Greedy(next, prefix, Matching(next, prefix, draft, 0) + 1)
  {
    var accepted := [];
    for i := 0 to |draft|
      invariant accepted == Greedy(next, prefix, i)
      invariant Matching(next, prefix, draft, 0) == Matching(next, prefix, draft, i)
    {
      var correct := next(prefix + accepted);
      if correct != draft[i] {
        return accepted + [correct];
      }
      accepted := accepted + [draft[i]];
    }
    out := accepted + [next(prefix + accepted)];
  }

  // ------------------------------------------------------------------ Jacobi rounds

  /** One round: every position from the old guess. */
  function Round(next: Oracle, prefix: seq<Id>, guess: seq<Id>): (r: seq<Id>)
    ensures |r| == |guess|
  {
    seq(|guess|, j requires 0 <= j < |guess| => next(prefix + guess[..j]))
  }

  ghost function Rounds(next: Oracle, prefix: seq<Id>, guess: seq<Id>, r: nat): (g: seq<Id>)
    ensures |g| == |guess|
  {
    if r == 0 then guess else Round(next, prefix, Rounds(next, prefix, guess, r - 1))
  }

  ghost predicate GreedyTo(next: Oracle, prefix: seq<Id>, guess: seq<Id>, r: nat) {
    r <= |guess| && guess[..r] == Greedy(next, prefix, r)
  }

  /** A round makes one more position greedy. */
  lemma {:induction false} RoundAddsOne(next: Oracle, prefix: seq<Id>, guess: seq<Id>, r: nat)
    requires GreedyTo(next, prefix, guess, r) && r < |guess|
    ensures GreedyTo(next, prefix, Round(next, prefix, guess), r + 1)
  {
    var g, g' := Greedy(next, prefix, r + 1), Round(next, prefix, guess);
    forall j | 0 <= j < r + 1
      ensures g'[j] == g[j]
    {
      GreedyPrefix(next, prefix, j, r);
      GreedyPrefix(next, prefix, j + 1, r + 1);
      assert guess[..j] == guess[..r][..j];
      assert g[j] == g[..j + 1][j];
    }
    assert g'[..r + 1] == g;
  }

  lemma {:induction false} RoundsAreGreedy(next: Oracle, prefix: seq<Id>, guess: seq<Id>, r: nat)
    requires r <= |guess|
    ensures GreedyTo(next, prefix, Rounds(next, prefix, guess, r), r)
  {
    if r > 0 {
      RoundsAreGreedy(next, prefix, guess, r - 1);
      RoundAddsOne(next, prefix, Rounds(next, prefix, guess, r - 1), r - 1);
    }
  }

  /** A guess that a round leaves alone is greedy throughout. */
  lemma {:induction false} FixedPointIsGreedy(next: Oracle, prefix: seq<Id>, guess: seq<Id>, r: nat)
    requires Round(next, prefix, guess) == guess && r <= |guess|
    ensures GreedyTo(next, prefix, guess, r)
  {
    if r > 0 {
      FixedPointIsGreedy(next, prefix, guess, r - 1);
      RoundAddsOne(next, prefix, guess, r - 1);
    }
  }

  /** Verifying a guess that is greedy in its first r places accepts at least r of them. */
  lemma {:induction false} GreedyIsAccepted(next: Oracle, prefix: seq<Id>, guess: seq<Id>, r: nat, i: nat)
    requires GreedyTo(next, prefix, guess, r) && i <= |guess|
    ensures Matching(next, prefix, guess, i) >= r
    decreases |guess| - i
  {
    if i < r {
      GreedyPrefix(next, prefix, i + 1, r);
      assert guess[..r][i] == guess[i];
      GreedyIsAccepted(next, prefix, guess, r, i + 1);
    }
  }

  /** Every place of the new guess comes from the places before it in the old one, and from nothing else. */
  ghost predicate FromOld(next: Oracle, prefix: seq<Id>, old_: seq<Id>, new_: seq<Id>) {
    |new_| == |old_| && forall j :: 0 <= j < |new_| ==> new_[j] == next(prefix + old_[..j])
  }

  /** The guesses of so many rounds, the first one given. */
  ghost predicate IsRounds(next: Oracle, prefix: seq<Id>, guess: seq<Id>, r: nat, guesses: seq<seq<Id>>) {
    && |guesses| == r + 1 && guesses[0] == guess
    && forall i: nat :: i < r ==> RoundAt(next, prefix, guesses, i)
  }

  ghost predicate RoundAt(next: Oracle, prefix: seq<Id>, guesses: seq<seq<Id>>, i: nat) {
    i + 1 < |guesses| && FromOld(next, prefix, guesses[i], guesses[i + 1])
  }

  lemma {:induction false} RoundsFromOld(next: Oracle, prefix: seq<Id>, guess: seq<Id>, r: nat)
    returns (guesses: seq<seq<Id>>)
    ensures IsRounds(next, prefix, guess, r, guesses) && guesses[r] == Rounds(next, prefix, guess, r)
  {
    guesses := [guess];
    if r > 0 {
      var before := RoundsFromOld(next, prefix, guess, r - 1);
      guesses := before + [Rounds(next, prefix, guess, r)];
      forall i: nat | i < r
        ensures RoundAt(next, prefix, guesses, i)
      {
        assert i < r - 1 ==> RoundAt(next, prefix, before, i);
      }
    }
  }

  datatype Proposal = Refused | Proposed(guess: seq<Id>)

  /** A bounded window and number of rounds, each round from the whole old guess. */
  method JacobiProposal(next: Oracle, prefix: seq<Id>, guess: seq<Id>, rounds: int) returns (p: Proposal)
    ensures p == Refused <==> !(1 <= |guess| <= 8 && 0 <= rounds <= |guess|)
    ensures p.Proposed? ==> p.guess == Rounds(next, prefix, guess, rounds) && GreedyTo(next, prefix, p.guess, rounds)
    ensures p.Proposed? ==> Matching(next, prefix, p.guess, 0) >= rounds
    ensures p.Proposed? ==>
              exists guesses :: IsRounds(next, prefix, guess, rounds, guesses) && guesses[rounds] == p.guess
  {
    if !(1 <= |guess| <= 8 && 0 <= rounds <= |guess|) {
      return Refused;
    }
    var current := guess;
    for r := 0 to rounds
      invariant current == Rounds(next, prefix, guess, r)
    {
      current := Round(next, prefix, current);
    }
    RoundsAreGreedy(next, prefix, guess, rounds);
    ghost var guesses := RoundsFromOld(next, prefix, guess, rounds);
    GreedyIsAccepted(next, prefix, current, rounds, 0);
    p := Proposed(current);
  }
}
