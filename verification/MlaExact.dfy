/** What attention is, over the reals: every score is the scaled product of query and key, the weights are the
    softmax of the scores a token sees, and each output entry is the weighted mean of the values. Whatever leaves
    the chains of the expanded variant leaves this. */
module MlaExact {
  import opened MlaAttentions
  import opened MlaVariants
  import opened MlaAbsorbed

  /** Exact arithmetic, with an exponential that is positive everywhere. */
  ghost predicate IsExact(a: Arith<real, real>) {
    && IsReal(a) && (forall x, y :: a.minus(x, y) == x - y) && (forall x, y :: a.greater(x, y) <==> x > y)
    && (forall x, y :: y != 0.0 ==> Product(a.overD(x, y), y) == x)
    && (forall x :: a.exp(x) > 0.0)
  }

  lemma {:induction false} RealArithIsExact(lowest: real, scale: real, exp: real -> real)
    requires forall x :: exp(x) > 0.0
    ensures IsExact(RealArith(lowest, scale, exp))
  {
    var a := RealArith(lowest, scale, exp);
    forall x, y | y != 0.0
      ensures Product(a.overD(x, y), y) == x
    {
      assert a.overD(x, y) == x / y;
    }
  }

  // ------------------------------------------------------------------ softmax

  ghost function SumTo(p: Vector, n: nat): real
    requires n <= |p|
  {
    if n == 0 then 0.0 else SumTo(p, n - 1) + p[n - 1]
  }

  /** The greatest of the first n entries. */
  ghost predicate IsPeak(row: Vector, n: nat, m: real)
    requires n <= |row|
  {
    (exists s :: 0 <= s < n && row[s] == m) && forall s :: 0 <= s < n ==> row[s] <= m
  }

  /** Positive weights that sum to one and are to each other as the exponentials of the scores less their peak.
      The scan for the peak starts from a score that all others exceed. */
  ghost predicate IsSoftmax(a: Arith<real, real>, row: Vector, n: nat, p: Vector, z: real) {
    && n <= |row| && n <= |p| && z > 0.0 && (forall s :: 0 <= s < n ==> p[s] > 0.0) && SumTo(p, n) == 1.0
    && exists m :: IsShifted(a, row, n, p, z, m)
  }

  ghost predicate IsShifted(a: Arith<real, real>, row: Vector, n: nat, p: Vector, z: real, m: real)
    requires n <= |row| && n <= |p|
  {
    && (forall s :: 0 <= s < n ==> Product(p[s], z) == a.exp(row[s] - m))
    && ((forall s :: 0 <= s < n ==> row[s] > a.lowest) ==> IsPeak(row, n, m))
  }

  lemma {:induction false} MaximumIsPeak(a: Arith<real, real>, row: Vector, n: nat)
    requires IsExact(a) && 1 <= n <= |row| && forall s :: 0 <= s < n ==> row[s] > a.lowest
    ensures IsPeak(row, n, Maximum(a, row, n))
  {
    if n > 1 {
      MaximumIsPeak(a, row, n - 1);
      var s :| 0 <= s < n - 1 && row[s] == Maximum(a, row, n - 1);
    } else {
      assert Maximum(a, row, 0) == a.lowest;
    }
  }

  ghost function Exponentials(a: Arith<real, real>, row: Vector, n: nat): (e: Vector)
    requires n <= |row|
    ensures |e| == n
  {
    seq(n, s requires 0 <= s < n => Exponential(a, row, n, s))
  }

  /** Entry k of the partial sums. */
  ghost predicate SumStep(sums: Vector, e: Vector, k: nat) {
    k + 1 < |sums| && k < |e| && sums[k + 1] == sums[k] + e[k]
  }

  lemma {:induction false} StepsSum(sums: Vector, e: Vector, n: nat)
    requires n < |sums| && n <= |e| && sums[0] == 0.0 && forall k: nat :: k < n ==> SumStep(sums, e, k)
    ensures sums[n] == SumTo(e, n)
  {
    if n > 0 {
      StepsSum(sums, e, n - 1);
      assert SumStep(sums, e, n - 1);
    }
  }

  ghost function PartialSums(a: Arith<real, real>, row: Vector, n: nat): (sums: Vector)
    requires n <= |row|
    ensures |sums| == n + 1
  {
    seq(n + 1, k requires 0 <= k <= n => Normaliser(a, row, n, k))
  }

  lemma {:induction false} PartialStep(a: Arith<real, real>, row: Vector, n: nat, k: nat, sums: Vector, e: Vector)
    requires IsExact(a) && k < n <= |row| && sums == PartialSums(a, row, n) && e == Exponentials(a, row, n)
    ensures SumStep(sums, e, k)
  {
    NormaliserNext(a, row, n, k);
  }

  lemma {:induction false} NormaliserNext(a: Arith<real, real>, row: Vector, n: nat, k: nat)
    requires IsExact(a) && k < n <= |row|
    ensures Normaliser(a, row, n, k + 1) == Normaliser(a, row, n, k) + Exponential(a, row, n, k)
  {}

  lemma {:induction false} NormaliserSums(a: Arith<real, real>, row: Vector, n: nat)
    requires IsExact(a) && n <= |row|
    ensures Normaliser(a, row, n, n) == SumTo(Exponentials(a, row, n), n)
  {
    var sums, e := PartialSums(a, row, n), Exponentials(a, row, n);
    forall k: nat | k < n
      ensures SumStep(sums, e, k)
    {
      PartialStep(a, row, n, k, sums, e);
    }
    StepsSum(sums, e, n);
  }

  lemma {:induction false} ExponentialIs(a: Arith<real, real>, row: Vector, n: nat, s: nat)
    requires IsExact(a) && s < n <= |row|
    ensures Exponential(a, row, n, s) == a.exp(row[s] - Maximum(a, row, n)) > 0.0
  {
    var x := row[s] - Maximum(a, row, n);
    assert a.minus(row[s], Maximum(a, row, n)) == x;
    assert a.exp(x) > 0.0;
  }

  lemma {:induction false} SumIsPositive(e: Vector, n: nat)
    requires 1 <= n <= |e| && forall s :: 0 <= s < n ==> e[s] > 0.0
    ensures SumTo(e, n) > 0.0
  {
    if n > 1 {
      SumIsPositive(e, n - 1);
    } else {
      assert SumTo(e, 0) == 0.0;
    }
  }

  lemma {:induction false} NormaliserIsPositive(a: Arith<real, real>, row: Vector, n: nat)
    requires IsExact(a) && 1 <= n <= |row|
    ensures Normaliser(a, row, n, n) > 0.0
  {
    var e := Exponentials(a, row, n);
    NormaliserSums(a, row, n);
    forall s | 0 <= s < n
      ensures e[s] > 0.0
    {
      ExponentialIs(a, row, n, s);
    }
    SumIsPositive(e, n);
  }

  lemma {:induction false} ProbabilityIs(a: Arith<real, real>, row: Vector, n: nat, s: nat, p: real, z: real)
    requires IsExact(a) && s < n <= |row| && z == Normaliser(a, row, n, n) && p == Probability(a, row, n, s)
    ensures z > 0.0 && p > 0.0 && Product(p, z) == Exponential(a, row, n, s)
  {
    NormaliserIsPositive(a, row, n);
    ExponentialIs(a, row, n, s);
    var e := Exponential(a, row, n, s);
    assert p == a.overD(e, z);
    PositiveQuotient(p, z);
  }

  lemma {:induction false} PositiveQuotient(p: real, z: real)
    requires z > 0.0
    ensures Product(p, z) > 0.0 ==> p > 0.0
  {
    if p <= 0.0 {
      assert p * z <= 0.0;
    }
  }

  lemma {:induction false} SumOfQuotients(p: Vector, e: Vector, z: real, n: nat)
    requires n <= |p| && n <= |e| && forall s :: 0 <= s < n ==> Product(p[s], z) == e[s]
    ensures Product(SumTo(p, n), z) == SumTo(e, n)
  {
    if n > 0 {
      SumOfQuotients(p, e, z, n - 1);
      ProductAdds(SumTo(p, n - 1), p[n - 1], z);
    }
  }

  lemma {:induction false} ProductAdds(x: real, y: real, z: real)
    ensures Product(x + y, z) == Product(x, z) + Product(y, z)
  {}

  lemma {:induction false} UnitFactor(x: real, z: real)
    requires z > 0.0 && Product(x, z) == z
    ensures x == 1.0
  {
    assert (x - 1.0) * z == 0.0;
  }

  /** What the three passes compute is a softmax. */
  lemma {:induction false} ProbabilitiesAreSoftmax(a: Arith<real, real>, row: Vector, n: nat, p: Vector, z: real)
    requires IsExact(a) && 1 <= n <= |row| && n <= |p| && z == Normaliser(a, row, n, n)
    requires forall s :: 0 <= s < n ==> p[s] == Probability(a, row, n, s)
    ensures IsSoftmax(a, row, n, p, z)
  {
    var e, m := Exponentials(a, row, n), Maximum(a, row, n);
    ProbabilitiesShift(a, row, n, p, z, e, m);
    NormaliserIsPositive(a, row, n);
    NormaliserSums(a, row, n);
    SumOfQuotients(p, e, z, n);
    UnitFactor(SumTo(p, n), z);
    if forall s :: 0 <= s < n ==> row[s] > a.lowest {
      MaximumIsPeak(a, row, n);
    }
    assert IsShifted(a, row, n, p, z, m);
  }

  lemma {:induction false} ProbabilitiesShift(a: Arith<real, real>, row: Vector, n: nat, p: Vector, z: real, e: Vector,
                                              m: real)
    requires IsExact(a) && n <= |row| && n <= |p| && z == Normaliser(a, row, n, n)
    requires e == Exponentials(a, row, n) && m == Maximum(a, row, n)
    requires forall s :: 0 <= s < n ==> p[s] == Probability(a, row, n, s)
    ensures forall s :: 0 <= s < n ==> p[s] > 0.0 && Product(p[s], z) == e[s] == a.exp(row[s] - m)
  {
    forall s | 0 <= s < n
      ensures p[s] > 0.0 && Product(p[s], z) == e[s] == a.exp(row[s] - m)
    {
      ProbabilityIs(a, row, n, s, p[s], z);
      ExponentialIs(a, row, n, s);
    }
  }

  /** The softmax of a row in place, over the reals. */
  method SoftmaxOfReals(a: Arith<real, real>, row: Vector, n: nat) returns (r: Vector, z: real)
    requires IsExact(a) && 1 <= n <= |row|
    ensures |r| == |row| && r[n..] == row[n..] && IsSoftmax(a, row, n, r, z)
  {
    r, z := SoftmaxRow(a, row, n);
    ProbabilitiesAreSoftmax(a, row, n, r, z);
  }

  // ------------------------------------------------------------------ means

  /** A mean with positive weights lies between any bounds of what it is taken of. */
  lemma {:induction false} MeanIsBetween(p: Vector, v: Vector, n: nat, lo: real, hi: real)
    requires n <= |p| && n <= |v| && forall s :: 0 <= s < n ==> p[s] > 0.0 && lo <= v[s] <= hi
    ensures Product(SumTo(p, n), lo) <= DotTo(p, v, n) <= Product(SumTo(p, n), hi)
  {
    if n > 0 {
      MeanIsBetween(p, v, n - 1, lo, hi);
      NextMean(SumTo(p, n - 1), DotTo(p, v, n - 1), p[n - 1], v[n - 1], lo, hi);
    }
  }

  lemma {:induction false} NextMean(sum: real, mean: real, p: real, x: real, lo: real, hi: real)
    requires Product(sum, lo) <= mean <= Product(sum, hi) && p > 0.0 && lo <= x <= hi
    ensures Product(sum + p, lo) <= mean + p * x <= Product(sum + p, hi)
  {
    ProductAdds(sum, p, lo);
    ProductAdds(sum, p, hi);
    ProductKeepsOrder(p, lo, x);
    ProductKeepsOrder(p, x, hi);
  }

  lemma {:induction false} ProductKeepsOrder(p: real, x: real, y: real)
    requires p > 0.0 && x <= y
    ensures Product(p, x) <= Product(p, y)
  {
    assert p * (y - x) >= 0.0;
  }

  // ------------------------------------------------------------------ attention

  ghost function QueryVector(c: Call<real, real>, t: nat, h: nat): (q: Vector)
    ensures |q| == c.nope + c.rope
  {
    seq(c.nope + c.rope, i requires 0 <= i < c.nope + c.rope => c.query(t, h, i))
  }

  /** The key of a position: kv_b's key rows of its latent, then its rope row, which all heads share. */
  ghost function KeyVector(c: Call<real, real>, s: nat, h: nat): (k: Vector)
    requires c.Shaped()
    ensures |k| == c.nope + c.rope
  {
    seq(c.nope, i requires 0 <= i < c.nope => c.kvb(h, i, c.latent(s))) + c.ropes(s)
  }

  /** Entry j of the values of the first n positions: kv_b's value rows of their latents. */
  ghost function ValueColumn(c: Call<real, real>, h: nat, j: nat, n: nat): (v: Vector)
    ensures |v| == n
  {
    seq(n, s requires 0 <= s < n => c.kvb(h, c.nope + j, c.latent(s)))
  }

  /** Causal attention of one token and head: it sees the cached positions and the new ones up to itself. */
  ghost predicate IsAttention(c: Call<real, real>, cell: Cell<real, real>, t: nat, h: nat)
    requires c.Shaped()
  {
    exists p :: AttendsWith(c, cell, t, h, p)
  }

  ghost predicate AttendsWith(c: Call<real, real>, cell: Cell<real, real>, t: nat, h: nat, p: Vector)
    requires c.Shaped()
  {
    var n := c.cached + t + 1;
    && |cell.scores| == |p| == n && |cell.o| == c.value && IsSoftmax(c.a, cell.scores, n, p, cell.z)
    && (forall s: nat :: s < n ==> ScoresAs(c, cell.scores[s], t, h, s))
    && (forall j: nat :: j < c.value ==> MeansAs(c, cell.o[j], h, j, n, p))
  }

  ghost predicate ScoresAs(c: Call<real, real>, score: real, t: nat, h: nat, s: nat)
    requires c.Shaped()
  {
    score == Product(DotTo(QueryVector(c, t, h), KeyVector(c, s, h), c.nope + c.rope), c.a.scale)
  }

  ghost predicate MeansAs(c: Call<real, real>, x: real, h: nat, j: nat, n: nat, p: Vector)
    requires n <= |p|
  {
    x == DotTo(p, ValueColumn(c, h, j, n), n)
  }

  /** Each output entry lies between any bounds of the values seen. */
  ghost predicate WithinValues(c: Call<real, real>, o: Vector, t: nat, h: nat, j: nat)
    requires j < |o|
  {
    forall lo, hi :: BoundsValues(c, t, h, j, lo, hi) ==> lo <= o[j] <= hi
  }

  ghost predicate BoundsValues(c: Call<real, real>, t: nat, h: nat, j: nat, lo: real, hi: real) {
    forall s: nat :: s < c.cached + t + 1 ==> lo <= c.kvb(h, c.nope + j, c.latent(s)) <= hi
  }

  /** Partial sums of a product, place at being the next. */
  ghost predicate ChainStep(chain: Vector, p: Vector, v: Vector, i: nat, at: nat) {
    i + 1 < |chain| && at < |p| && at < |v| && chain[i + 1] == chain[i] + Product(p[at], v[at])
  }

  lemma {:induction false} StepIs(chain: Vector, p: Vector, v: Vector, i: nat, at: nat, before: real, after: real,
                                  x: real, y: real)
    requires i + 1 < |chain| && at < |p| && at < |v| && chain[i] == before && chain[i + 1] == after
    requires p[at] == x && v[at] == y && after == before + Product(x, y)
    ensures ChainStep(chain, p, v, i, at)
  {}

  lemma {:induction false} ChainIsDot(chain: Vector, p: Vector, v: Vector, from: nat, n: nat, at: nat)
    requires n < |chain| && at == from + n && at <= |p| && at <= |v| && chain[0] == DotTo(p, v, from)
    requires forall i: nat, to: nat :: i < n && to == from + i ==> ChainStep(chain, p, v, i, to)
    ensures chain[n] == DotTo(p, v, at)
  {
    if n > 0 {
      ChainIsDot(chain, p, v, from, n - 1, at - 1);
      assert ChainStep(chain, p, v, n - 1, at - 1);
    }
  }

  ghost function NopeSums(c: Call<real, real>, t: nat, h: nat, s: nat): (chain: Vector)
    ensures |chain| == c.nope + 1
  {
    seq(c.nope + 1, n requires 0 <= n <= c.nope => NopeChain(c, t, h, Expanded(c, s, h), n))
  }

  lemma {:induction false} NopeStep(c: Call<real, real>, t: nat, h: nat, s: nat, i: nat)
    requires IsReal(c.a) && c.Shaped() && i < c.nope
    ensures ChainStep(NopeSums(c, t, h, s), QueryVector(c, t, h), KeyVector(c, s, h), i, i)
  {
    var ks := Expanded(c, s, h);
    RealNope(c, t, h, ks, i);
    NopeEntries(c, t, h, s, i);
    StepIs(NopeSums(c, t, h, s), QueryVector(c, t, h), KeyVector(c, s, h), i, i, NopeChain(c, t, h, ks, i),
           NopeChain(c, t, h, ks, i + 1), c.query(t, h, i), ks[i]);
  }

  lemma {:induction false} NopeEntries(c: Call<real, real>, t: nat, h: nat, s: nat, i: nat)
    requires c.Shaped() && i < c.nope
    ensures NopeSums(c, t, h, s)[i] == NopeChain(c, t, h, Expanded(c, s, h), i)
    ensures NopeSums(c, t, h, s)[i + 1] == NopeChain(c, t, h, Expanded(c, s, h), i + 1)
    ensures QueryVector(c, t, h)[i] == c.query(t, h, i) && KeyVector(c, s, h)[i] == Expanded(c, s, h)[i]
  {}

  lemma {:induction false} NopeIsDot(c: Call<real, real>, t: nat, h: nat, s: nat)
    requires IsReal(c.a) && c.Shaped()
    ensures NopeChain(c, t, h, Expanded(c, s, h), c.nope) ==
            DotTo(QueryVector(c, t, h), KeyVector(c, s, h), c.nope)
  {
    var chain, q, k := NopeSums(c, t, h, s), QueryVector(c, t, h), KeyVector(c, s, h);
    forall i: nat, to: nat | i < c.nope && to == 0 + i
      ensures ChainStep(chain, q, k, i, to)
    {
      NopeStep(c, t, h, s, i);
    }
    ChainIsDot(chain, q, k, 0, c.nope, c.nope);
  }

  ghost function RopeSums(c: Call<real, real>, t: nat, h: nat, s: nat): (chain: Vector)
    requires c.Shaped()
    ensures |chain| == c.rope + 1
  {
    seq(c.rope + 1, n requires 0 <= n <= c.rope => RopeChain(c, t, h, Expanded(c, s, h), c.ropes(s), n))
  }

  lemma {:induction false} RopeStep(c: Call<real, real>, t: nat, h: nat, s: nat, i: nat, at: nat)
    requires IsReal(c.a) && c.Shaped() && i < c.rope && at == c.nope + i
    ensures ChainStep(RopeSums(c, t, h, s), QueryVector(c, t, h), KeyVector(c, s, h), i, at)
  {
    var chain := RopeSums(c, t, h, s);
    RopeNext(c, t, h, s, i, at, chain);
    RopeKey(c, t, h, s, i, at);
    StepIs(chain, QueryVector(c, t, h), KeyVector(c, s, h), i, at, chain[i], chain[i + 1], c.query(t, h, at),
           c.ropes(s)[i]);
  }

  lemma {:induction false} RopeNext(c: Call<real, real>, t: nat, h: nat, s: nat, i: nat, at: nat, chain: Vector)
    requires IsReal(c.a) && c.Shaped() && i < c.rope && at == c.nope + i && chain == RopeSums(c, t, h, s)
    ensures chain[i + 1] == chain[i] + Product(c.query(t, h, at), c.ropes(s)[i])
  {
    RealRope(c, t, h, Expanded(c, s, h), c.ropes(s), i);
  }

  lemma {:induction false} RopeKey(c: Call<real, real>, t: nat, h: nat, s: nat, i: nat, at: nat)
    requires c.Shaped() && i < c.rope && at == c.nope + i
    ensures QueryVector(c, t, h)[at] == c.query(t, h, at) && KeyVector(c, s, h)[at] == c.ropes(s)[i]
  {}

  lemma {:induction false} ScoreIsDot(c: Call<real, real>, t: nat, h: nat, s: nat)
    requires IsReal(c.a) && c.Shaped()
    ensures ScoresAs(c, Score(c, t, h, s), t, h, s)
  {
    var chain, q, k := RopeSums(c, t, h, s), QueryVector(c, t, h), KeyVector(c, s, h);
    NopeIsDot(c, t, h, s);
    forall i: nat, to: nat | i < c.rope && to == c.nope + i
      ensures ChainStep(chain, q, k, i, to)
    {
      RopeStep(c, t, h, s, i, to);
    }
    ChainIsDot(chain, q, k, c.nope, c.rope, c.nope + c.rope);
  }

  ghost function WeightRow(c: Call<real, real>, t: nat, h: nat): (p: Vector)
    requires c.Shaped()
    ensures |p| == Seen(c, t)
  {
    seq(Seen(c, t), s requires 0 <= s < Seen(c, t) => Weight(c, t, h, s))
  }

  ghost function ValueSums(c: Call<real, real>, t: nat, h: nat, j: nat): (chain: Vector)
    requires c.Shaped() && j < c.value
    ensures |chain| == Seen(c, t) + 1
  {
    seq(Seen(c, t) + 1, n requires 0 <= n <= Seen(c, t) => ValueChain(c, t, h, j, n))
  }

  lemma {:induction false} ValueStep(c: Call<real, real>, t: nat, h: nat, j: nat, i: nat)
    requires IsReal(c.a) && c.Shaped() && j < c.value && i < Seen(c, t)
    ensures ChainStep(ValueSums(c, t, h, j), WeightRow(c, t, h), ValueColumn(c, h, j, Seen(c, t)), i, i)
  {
    var x := Expanded(c, i, h)[c.nope + j];
    RealValue(c, t, h, j, i);
    ValueEntries(c, t, h, j, i, Seen(c, t));
    StepIs(ValueSums(c, t, h, j), WeightRow(c, t, h), ValueColumn(c, h, j, Seen(c, t)), i, i,
           ValueChain(c, t, h, j, i), ValueChain(c, t, h, j, i + 1), Weight(c, t, h, i), x);
  }

  lemma {:induction false} ValueEntries(c: Call<real, real>, t: nat, h: nat, j: nat, i: nat, n: nat)
    requires c.Shaped() && j < c.value && i < n == Seen(c, t)
    ensures ValueSums(c, t, h, j)[i] == ValueChain(c, t, h, j, i)
    ensures ValueSums(c, t, h, j)[i + 1] == ValueChain(c, t, h, j, i + 1)
    ensures WeightRow(c, t, h)[i] == Weight(c, t, h, i)
    ensures ValueColumn(c, h, j, n)[i] == Expanded(c, i, h)[c.nope + j]
  {}

  lemma {:induction false} OutputIsMean(c: Call<real, real>, x: real, t: nat, h: nat, j: nat, n: nat)
    requires IsReal(c.a) && c.Shaped() && j < c.value && n == Seen(c, t) && x == ValueChain(c, t, h, j, n)
    ensures MeansAs(c, x, h, j, n, WeightRow(c, t, h))
  {
    var chain, p, v := ValueSums(c, t, h, j), WeightRow(c, t, h), ValueColumn(c, h, j, n);
    forall i: nat, to: nat | i < n && to == 0 + i
      ensures ChainStep(chain, p, v, i, to)
    {
      ValueStep(c, t, h, j, i);
    }
    ChainIsDot(chain, p, v, 0, n, n);
  }

  lemma {:induction false} MeanWithinValues(c: Call<real, real>, o: Vector, t: nat, h: nat, j: nat, n: nat, p: Vector)
    requires n == c.cached + t + 1 <= |p| && j < |o| && MeansAs(c, o[j], h, j, n, p)
    requires (forall s :: 0 <= s < n ==> p[s] > 0.0) && SumTo(p, n) == 1.0
    ensures WithinValues(c, o, t, h, j)
  {
    forall lo, hi | BoundsValues(c, t, h, j, lo, hi)
      ensures lo <= o[j] <= hi
    {
      MeanIsBetween(p, ValueColumn(c, h, j, n), n, lo, hi);
    }
  }

  /** What every variant leaves is attention, and each output entry lies within the values seen. */
  lemma {:induction false} FinishedIsAttention(c: Call<real, real>, cell: Cell<real, real>, t: nat, h: nat)
    requires IsExact(c.a) && c.Shaped() && Finished(c, cell, t, h)
    ensures IsAttention(c, cell, t, h)
    ensures |cell.o| == c.value && forall j: nat :: j < c.value ==> WithinValues(c, cell.o, t, h, j)
  {
    var n, p := c.cached + t + 1, WeightRow(c, t, h);
    ScoresAreDots(c, cell.scores, t, h, n);
    WeightsAreSoftmax(c, cell.scores, t, h, n, cell.z);
    OutputsAreMeans(c, cell.o, t, h, n, p);
    assert AttendsWith(c, cell, t, h, p);
  }

  lemma {:induction false} OutputsAreMeans(c: Call<real, real>, o: Vector, t: nat, h: nat, n: nat, p: Vector)
    requires IsReal(c.a) && c.Shaped() && n == Seen(c, t) && Summed(c, o, t, h, n) && p == WeightRow(c, t, h)
    requires (forall s :: 0 <= s < n ==> p[s] > 0.0) && SumTo(p, n) == 1.0
    ensures |o| == c.value
    ensures forall j: nat :: j < c.value ==> MeansAs(c, o[j], h, j, n, p) && WithinValues(c, o, t, h, j)
  {
    forall j: nat | j < c.value
      ensures MeansAs(c, o[j], h, j, n, p) && WithinValues(c, o, t, h, j)
    {
      OutputIsMean(c, o[j], t, h, j, n);
      MeanWithinValues(c, o, t, h, j, n, p);
    }
  }

  lemma {:induction false} ScoresAreDots(c: Call<real, real>, scores: Vector, t: nat, h: nat, n: nat)
    requires IsReal(c.a) && c.Shaped() && scores == ScoreRow(c, t, h) && n == Seen(c, t)
    ensures forall s: nat :: s < n ==> ScoresAs(c, scores[s], t, h, s)
  {
    forall s: nat | s < n
      ensures ScoresAs(c, scores[s], t, h, s)
    {
      ScoreIsDot(c, t, h, s);
    }
  }

  lemma {:induction false} WeightsAreSoftmax(c: Call<real, real>, scores: Vector, t: nat, h: nat, n: nat, z: real)
    requires IsExact(c.a) && c.Shaped() && scores == ScoreRow(c, t, h) && n == Seen(c, t) && z == ZOf(c, t, h)
    ensures IsSoftmax(c.a, scores, n, WeightRow(c, t, h), z)
  {
    ProbabilitiesAreSoftmax(c.a, scores, n, WeightRow(c, t, h), z);
  }

  /** E over the reals: attention of every token and head. */
  method AttendReals(c: Call<real, real>, kv: seq<seq<Vector>>, rope: seq<Vector>, out: array2<Cell<real, real>>)
    requires IsExact(c.a) && c.Shaped() && Fits(c, out)
    requires ExpandedStored(c, kv, c.Positions()) && RopesStored(c, rope, c.Positions())
    modifies out
    ensures forall t: nat, h: nat :: t < c.tokens && h < c.heads ==> IsAttention(c, out[t, h], t, h)
    ensures forall t: nat, h: nat, j: nat :: t < c.tokens && h < c.heads && j < c.value ==>
              |out[t, h].o| == c.value && WithinValues(c, out[t, h].o, t, h, j)
  {
    AttendE(c, kv, rope, out);
    forall t: nat, h: nat | t < c.tokens && h < c.heads
      ensures IsAttention(c, out[t, h], t, h)
      ensures |out[t, h].o| == c.value && forall j: nat :: j < c.value ==> WithinValues(c, out[t, h].o, t, h, j)
    {
      FinishedIsAttention(c, out[t, h], t, h);
    }
  }
}
