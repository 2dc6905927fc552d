/** The absorbed variant over the reals: kv_b's key rows folded into the query and its value rows applied
    after the latent-weighted sum. In exact arithmetic it is the expanded variant. */
module MlaAbsorbed {
  import opened Numbers
  import opened MlaAttentions
  import opened MlaVariants
  import opened MlaLatents

  type Vector = seq<real>

  // ------------------------------------------------------------------ linear algebra

  ghost function DotTo(a: Vector, b: Vector, n: nat): real
    requires n <= |a| && n <= |b|
  {
    if n == 0 then 0.0 else DotTo(a, b, n - 1) + a[n - 1] * b[n - 1]
  }

  function DotOf(a: Vector, b: Vector, n: nat): (d: real)
    requires n <= |a| && n <= |b|
    ensures d == DotTo(a, b, n)
  {
    if n == 0 then 0.0 else DotOf(a, b, n - 1) + a[n - 1] * b[n - 1]
  }

  /** a + k * b */
  function AddMultiple(a: Vector, k: real, b: Vector): (r: Vector)
    requires |a| == |b|
    ensures |r| == |a|
  {
    seq(|a|, i requires 0 <= i < |a| => a[i] + k * b[i])
  }

  lemma {:induction false} DotOfMultiple(a: Vector, k: real, b: Vector, v: Vector, n: nat)
    requires |a| == |b| && n <= |a| && n <= |v|
    ensures DotTo(AddMultiple(a, k, b), v, n) == DotTo(a, v, n) + Product(k, DotTo(b, v, n))
  {
    if n > 0 {
      DotOfMultiple(a, k, b, v, n - 1);
      LeftTerm(a[n - 1], k, b[n - 1], v[n - 1], DotTo(a, v, n - 1), DotTo(b, v, n - 1));
    }
  }

  lemma {:induction false} DotWithMultiple(v: Vector, a: Vector, k: real, b: Vector, n: nat)
    requires |a| == |b| && n <= |a| && n <= |v|
    ensures DotTo(v, AddMultiple(a, k, b), n) == DotTo(v, a, n) + Product(k, DotTo(v, b, n))
  {
    if n > 0 {
      DotWithMultiple(v, a, k, b, n - 1);
      RightTerm(a[n - 1], k, b[n - 1], v[n - 1], DotTo(v, a, n - 1), DotTo(v, b, n - 1));
    }
  }

  lemma {:induction false} LeftTerm(a: real, k: real, b: real, v: real, d: real, e: real)
    ensures (d + Product(k, e)) + (a + k * b) * v == (d + a * v) + Product(k, e + b * v)
  {
    assert (a + k * b) * v == a * v + k * (b * v);
    assert k * (e + b * v) == k * e + k * (b * v);
  }

  lemma {:induction false} RightTerm(a: real, k: real, b: real, v: real, d: real, e: real)
    ensures (d + Product(k, e)) + v * (a + k * b) == (d + v * a) + Product(k, e + v * b)
  {
    assert v * (a + k * b) == v * a + k * (v * b);
    assert k * (e + v * b) == k * e + k * (v * b);
  }

  function ZeroVector(n: nat): (z: Vector)
    ensures |z| == n
  {
    seq(n, _ => 0.0)
  }

  lemma {:induction false} DotOfZero(v: Vector, m: nat, n: nat)
    requires n <= |v| && n <= m
    ensures DotTo(ZeroVector(m), v, n) == 0.0 && DotTo(v, ZeroVector(m), n) == 0.0
  {
    if n > 0 {
      DotOfZero(v, m, n - 1);
    }
  }

  // ------------------------------------------------------------------ the layer over the reals

  /** kv_b's rows: w[h][i] for output row i of head h. */
  datatype Weights = Weights(w: seq<seq<Vector>>, lora: nat)
  {
    ghost predicate Fit(heads: nat, rows: nat) {
      |w| == heads && forall h: nat :: h < heads ==> |w[h]| == rows && forall i: nat :: i < rows ==> |w[h][i]| == lora
    }
  }

  /** Quotient, total. */
  function Over(x: real, y: real): real {
    if y == 0.0 then 0.0 else x / y
  }

  function RealArith(lowest: real, scale: real, exp: real -> real): Arith<real, real> {
    Arith(0.0, 0.0, lowest, scale, x => x, x => x, (x, y) => x + y, (x, y) => x * y, (x, y) => Over(x, y),
          (x, y) => x + y, (x, y) => x * y, (x, y) => x - y, exp, (x, y) => x > y)
  }

  /** The operations are those of the reals, without rounding. */
  ghost predicate IsReal(a: Arith<real, real>) {
    && a.zero == 0.0 && a.zeroD == 0.0
    && (forall x :: a.widen(x) == x) && (forall x :: a.narrow(x) == x)
    && (forall x, y :: a.plusD(x, y) == x + y) && (forall x, y :: a.timesD(x, y) == Product(x, y))
    && (forall x, y :: a.plus(x, y) == x + y) && (forall x, y :: a.times(x, y) == Product(x, y))
  }

  ghost function Product(x: real, y: real): real {
    x * y
  }

  lemma {:induction false} RealArithIsReal(lowest: real, scale: real, exp: real -> real)
    ensures IsReal(RealArith(lowest, scale, exp))
  {}

  /** The call runs over the reals, and its kernel multiplies a latent by the rows of kv_b. */
  ghost predicate IsLinear(c: Call<real, real>, k: Weights) {
    && c.Shaped() && k.Fit(c.heads, c.HeadRows()) && (forall s: nat :: |c.latent(s)| == k.lora)
    && IsReal(c.a)
    && forall h: nat, i: nat, s: nat :: h < c.heads && i < c.HeadRows() ==> KernelAt(c, k, h, i, s)
  }

  ghost predicate KernelAt(c: Call<real, real>, k: Weights, h: nat, i: nat, s: nat) {
    && h < |k.w| && i < |k.w[h]| && |k.w[h][i]| == k.lora && |c.latent(s)| == k.lora
    && c.kvb(h, i, c.latent(s)) == DotTo(k.w[h][i], c.latent(s), k.lora)
  }

  // ------------------------------------------------------------------ the scores agree

  /** The query absorbed into the key rows: the first n rows, each times its query entry. */
  ghost function Absorbed(c: Call<real, real>, k: Weights, t: nat, h: nat, n: nat): (v: Vector)
    requires IsLinear(c, k) && h < c.heads && n <= c.nope
    ensures |v| == k.lora
  {
    if n == 0 then ZeroVector(k.lora) else AddMultiple(Absorbed(c, k, t, h, n - 1), c.query(t, h, n - 1), k.w[h][n - 1])
  }

  lemma {:induction false} RealNope(c: Call<real, real>, t: nat, h: nat, ks: Vector, n: nat)
    requires IsReal(c.a) && n < |ks|
    ensures NopeChain(c, t, h, ks, n + 1) == NopeChain(c, t, h, ks, n) + Product(c.query(t, h, n), ks[n])
  {}

  lemma {:induction false} RealRope(c: Call<real, real>, t: nat, h: nat, ks: Vector, kr: Vector, n: nat)
    requires IsReal(c.a) && c.nope <= |ks| && n < |kr|
    ensures RopeChain(c, t, h, ks, kr, n + 1) ==
            RopeChain(c, t, h, ks, kr, n) + Product(c.query(t, h, c.nope + n), kr[n])
  {}

  lemma {:induction false} RealValue(c: Call<real, real>, t: nat, h: nat, j: nat, n: nat)
    requires IsReal(c.a) && c.Shaped() && n < Seen(c, t) && j < c.value
    ensures ValueChain(c, t, h, j, n + 1) ==
            ValueChain(c, t, h, j, n) + Product(Weight(c, t, h, n), Expanded(c, n, h)[c.nope + j])
  {}

  /** One more row on both sides: the chain takes a product, the absorbed query a multiple of a row. */
  lemma {:induction false} NextMultiple(before: real, after: real, a: Vector, k: real, b: Vector, v: Vector, n: nat,
                                        key: real)
    requires |a| == |b| && n <= |a| && n <= |v|
    requires before == DotTo(a, v, n) && key == DotTo(b, v, n) && after == before + Product(k, key)
    ensures after == DotTo(AddMultiple(a, k, b), v, n)
  {
    DotOfMultiple(a, k, b, v, n);
  }

  lemma {:induction false} KeyOfLatent(c: Call<real, real>, k: Weights, h: nat, i: nat, s: nat)
    requires IsLinear(c, k) && h < c.heads && i < c.HeadRows()
    ensures |k.w[h][i]| == k.lora && Expanded(c, s, h)[i] == DotTo(k.w[h][i], c.latent(s), k.lora)
  {
    assert KernelAt(c, k, h, i, s);
  }

  lemma {:induction false} NextAbsorbed(c: Call<real, real>, k: Weights, t: nat, h: nat, n: nat)
    requires IsLinear(c, k) && h < c.heads && n < c.nope
    ensures |k.w[h][n]| == k.lora
    ensures Absorbed(c, k, t, h, n + 1) == AddMultiple(Absorbed(c, k, t, h, n), c.query(t, h, n), k.w[h][n])
  {}

  /** q . (W c) == (W^T q) . c, a row at a time. */
  lemma {:induction false} AbsorbedChain(c: Call<real, real>, k: Weights, t: nat, h: nat, s: nat, n: nat)
    requires IsLinear(c, k) && h < c.heads && n <= c.nope
    ensures NopeChain(c, t, h, Expanded(c, s, h), n) == DotTo(Absorbed(c, k, t, h, n), c.latent(s), k.lora)
  {
    if n == 0 {
      DotOfZero(c.latent(s), k.lora, k.lora);
    } else {
      AbsorbedChain(c, k, t, h, s, n - 1);
      RealNope(c, t, h, Expanded(c, s, h), n - 1);
      KeyOfLatent(c, k, h, n - 1, s);
      NextAbsorbed(c, k, t, h, n - 1);
      NextMultiple(NopeChain(c, t, h, Expanded(c, s, h), n - 1), NopeChain(c, t, h, Expanded(c, s, h), n),
                   Absorbed(c, k, t, h, n - 1), c.query(t, h, n - 1), k.w[h][n - 1], c.latent(s), k.lora,
                   Expanded(c, s, h)[n - 1]);
    }
  }

  // ------------------------------------------------------------------ the values agree

  ghost predicate Wide(latent: seq<Vector>, lora: nat, n: nat) {
    n <= |latent| && forall s: nat :: s < n ==> |latent[s]| == lora
  }

  /** The first n latents, each times its probability. */
  ghost function LatentSum(lora: nat, p: Vector, latent: seq<Vector>, n: nat): (v: Vector)
    requires n <= |p| && Wide(latent, lora, n)
    ensures |v| == lora
  {
    if n == 0 then ZeroVector(lora) else AddMultiple(LatentSum(lora, p, latent, n - 1), p[n - 1], latent[n - 1])
  }

  lemma {:induction false} NextLatent(lora: nat, p: Vector, latent: seq<Vector>, n: nat)
    requires n < |p| && Wide(latent, lora, n + 1)
    ensures |latent[n]| == lora
    ensures LatentSum(lora, p, latent, n + 1) == AddMultiple(LatentSum(lora, p, latent, n), p[n], latent[n])
  {}

  lemma {:induction false} StoredIsWide(c: Call<real, real>, k: Weights, latent: seq<Vector>)
    requires IsLinear(c, k) && LatentStored(c, latent, c.Positions())
    ensures Wide(latent, k.lora, c.Positions())
  {}

  /** The term of position n, from the probability row and the stored latent. */
  lemma {:induction false} ValueTerm(c: Call<real, real>, k: Weights, t: nat, h: nat, j: nat, p: Vector,
                                     latent: seq<Vector>, n: nat)
    requires IsLinear(c, k) && h < c.heads && t < c.tokens && n < Seen(c, t) && j < c.value
    requires Weighted(c, p, t, h) && LatentStored(c, latent, c.Positions()) && |latent[n]| == k.lora
    ensures |k.w[h][c.nope + j]| == k.lora
    ensures ValueChain(c, t, h, j, n + 1) ==
            ValueChain(c, t, h, j, n) + Product(p[n], DotTo(k.w[h][c.nope + j], latent[n], k.lora))
  {
    RealValue(c, t, h, j, n);
    KeyOfLatent(c, k, h, c.nope + j, n);
  }

  /** sum p (W c) == W (sum p c), a position at a time. */
  lemma {:induction false} ValueOfSum(c: Call<real, real>, k: Weights, t: nat, h: nat, j: nat, p: Vector,
                                      latent: seq<Vector>, row: Vector, n: nat)
    requires IsLinear(c, k) && h < c.heads && t < c.tokens && n <= Seen(c, t) && j < c.value
    requires Weighted(c, p, t, h) && LatentStored(c, latent, c.Positions()) && Wide(latent, k.lora, c.Positions())
    requires row == k.w[h][c.nope + j] && |row| == k.lora
    ensures ValueChain(c, t, h, j, n) == DotTo(row, LatentSum(k.lora, p, latent, n), k.lora)
  {
    if n == 0 {
      DotOfZero(row, k.lora, k.lora);
      NoValue(c, t, h, j);
    } else {
      ValueOfSum(c, k, t, h, j, p, latent, row, n - 1);
      ValueTerm(c, k, t, h, j, p, latent, n - 1);
      NextSum(ValueChain(c, t, h, j, n - 1), k.lora, p, latent, row, n - 1);
    }
  }

  lemma {:induction false} NoValue(c: Call<real, real>, t: nat, h: nat, j: nat)
    requires IsReal(c.a) && c.Shaped() && j < c.value
    ensures ValueChain(c, t, h, j, 0) == 0.0
  {}

  lemma {:induction false} NextSum(chain: real, lora: nat, p: Vector, latent: seq<Vector>, row: Vector, n: nat)
    requires n < |p| && Wide(latent, lora, n + 1) && |row| == lora
    requires chain == DotTo(row, LatentSum(lora, p, latent, n), lora)
    ensures chain + Product(p[n], DotTo(row, latent[n], lora)) == DotTo(row, LatentSum(lora, p, latent, n + 1), lora)
  {
    NextLatent(lora, p, latent, n);
    DotWithMultiple(row, LatentSum(lora, p, latent, n), p[n], latent[n], lora);
  }

  // ------------------------------------------------------------------ the method

  datatype WeightType = Bf16 | F32 | Int8 | Streamed

  const MAX_HEADS := 256
  const MAX_LORA := 2048

  /** q_abs of one head for every token: rows outside, tokens inside. */
  method AbsorbHead(c: Call<real, real>, k: Weights, h: nat) returns (ah: seq<Vector>)
    requires IsLinear(c, k) && h < c.heads
    ensures |ah| == c.tokens && forall t: nat :: t < c.tokens ==> ah[t] == Absorbed(c, k, t, h, c.nope)
  {
    ah := seq(c.tokens, _ => ZeroVector(k.lora));
    for i := 0 to c.nope
      invariant |ah| == c.tokens && forall t: nat :: t < c.tokens ==> ah[t] == Absorbed(c, k, t, h, i)
    {
      ah := AbsorbRow(c, k, h, i, ah);
    }
  }

  method AbsorbRow(c: Call<real, real>, k: Weights, h: nat, i: nat, before: seq<Vector>) returns (ah: seq<Vector>)
    requires IsLinear(c, k) && h < c.heads && i < c.nope
    requires |before| == c.tokens && forall t: nat :: t < c.tokens ==> before[t] == Absorbed(c, k, t, h, i)
    ensures |ah| == c.tokens && forall t: nat :: t < c.tokens ==> ah[t] == Absorbed(c, k, t, h, i + 1)
  {
    ah := before;
    for t := 0 to c.tokens
      invariant |ah| == c.tokens
      invariant forall u: nat :: u < t ==> ah[u] == Absorbed(c, k, u, h, i + 1)
      invariant forall u: nat :: t <= u < c.tokens ==> ah[u] == Absorbed(c, k, u, h, i)
    {
      var at := Accumulate(ah[t], c.query(t, h, i), k.w[h][i]);
      ah := ah[t := at];
    }
  }

  /** a[j] += k * b[j] */
  method Accumulate(a: Vector, k: real, b: Vector) returns (r: Vector)
    requires |a| == |b|
    ensures r == AddMultiple(a, k, b)
  {
    r := a;
    for j := 0 to |a|
      invariant |r| == |a| && r[j..] == a[j..] && forall i :: 0 <= i < j ==> r[i] == AddMultiple(a, k, b)[i]
    {
      r := r[j := r[j] + k * b[j]];
    }
  }

  /** Four terms of a chain at once: the sequential sum written out. */
  lemma {:induction false} FourTerms(a: Vector, b: Vector, j: nat, d: real)
    requires j + 4 <= |a| && j + 4 <= |b| && d == DotTo(a, b, j)
    ensures (((d + a[j] * b[j]) + a[j + 1] * b[j + 1]) + a[j + 2] * b[j + 2]) + a[j + 3] * b[j + 3] ==
            DotTo(a, b, j + 4)
  {
    assert DotTo(a, b, j + 1) == d + a[j] * b[j];
    assert DotTo(a, b, j + 2) == DotTo(a, b, j + 1) + a[j + 1] * b[j + 1];
    assert DotTo(a, b, j + 3) == DotTo(a, b, j + 2) + a[j + 2] * b[j + 2];
  }

  /** The score chains of all heads for one position, side by side. */
  method LatentChains(qa: seq<Vector>, cs: Vector) returns (d: Vector)
    requires forall h: nat :: h < |qa| ==> |qa[h]| == |cs|
    ensures |d| == |qa| && forall h: nat :: h < |qa| ==> d[h] == DotTo(qa[h], cs, |cs|)
  {
    d := ZeroVector(|qa|);
    var j := 0;
    while j + 3 < |cs|
      invariant j <= |cs| && |d| == |qa| && forall h: nat :: h < |qa| ==> d[h] == DotTo(qa[h], cs, j)
    {
      d := FourChains(qa, cs, j, d);
      j := j + 4;
    }
    while j < |cs|
      invariant j <= |cs| && |d| == |qa| && forall h: nat :: h < |qa| ==> d[h] == DotTo(qa[h], cs, j)
    {
      d := OneTerm(qa, cs, j, d);
      j := j + 1;
    }
  }

  method FourChains(qa: seq<Vector>, cs: Vector, j: nat, before: Vector) returns (d: Vector)
    requires j + 4 <= |cs| && |before| == |qa| && forall h: nat :: h < |qa| ==> |qa[h]| == |cs|
    requires forall h: nat :: h < |qa| ==> before[h] == DotTo(qa[h], cs, j)
    ensures |d| == |qa| && forall h: nat :: h < |qa| ==> d[h] == DotTo(qa[h], cs, j + 4)
  {
    d := before;
    for h := 0 to |qa|
      invariant |d| == |qa| && d[h..] == before[h..] && forall g: nat :: g < h ==> d[g] == DotTo(qa[g], cs, j + 4)
    {
      var q := qa[h];
      FourTerms(q, cs, j, before[h]);
      d := d[h := (((d[h] + q[j] * cs[j]) + q[j + 1] * cs[j + 1]) + q[j + 2] * cs[j + 2]) + q[j + 3] * cs[j + 3]];
    }
  }

  method OneTerm(qa: seq<Vector>, cs: Vector, j: nat, before: Vector) returns (d: Vector)
    requires j < |cs| && |before| == |qa| && forall h: nat :: h < |qa| ==> |qa[h]| == |cs|
    requires forall h: nat :: h < |qa| ==> before[h] == DotTo(qa[h], cs, j)
    ensures |d| == |qa| && forall h: nat :: h < |qa| ==> d[h] == DotTo(qa[h], cs, j + 1)
  {
    d := before;
    for h := 0 to |qa|
      invariant |d| == |qa| && d[h..] == before[h..] && forall g: nat :: g < h ==> d[g] == DotTo(qa[g], cs, j + 1)
    {
      d := d[h := d[h] + qa[h][j] * cs[j]];
    }
  }

  /** The heads' absorbed queries of one token. */
  ghost predicate AbsorbedQueries(c: Call<real, real>, k: Weights, qa: seq<Vector>, t: nat)
    requires IsLinear(c, k)
  {
    |qa| == c.heads && forall h: nat :: h < c.heads ==> qa[h] == Absorbed(c, k, t, h, c.nope)
  }

  /** Each head's chain after its latent terms and the first i rope terms. */
  ghost predicate ChainsAt(c: Call<real, real>, d: Vector, kr: Vector, t: nat, s: nat, i: nat)
    requires i <= |kr|
  {
    |d| == c.heads && forall h: nat :: h < c.heads ==> d[h] == RopeChain(c, t, h, Expanded(c, s, h), kr, i)
  }

  method LatentScores(c: Call<real, real>, k: Weights, qa: seq<Vector>, cs: Vector, ghost kr: Vector, ghost t: nat,
                      ghost s: nat)
    returns (d: Vector)
    requires IsLinear(c, k) && AbsorbedQueries(c, k, qa, t) && cs == c.latent(s)
    ensures ChainsAt(c, d, kr, t, s, 0)
  {
    d := LatentChains(qa, cs);
    forall h: nat | h < c.heads
      ensures d[h] == RopeChain(c, t, h, Expanded(c, s, h), kr, 0)
    {
      AbsorbedChain(c, k, t, h, s, c.nope);
    }
  }

  /** Scores of every head for one token and position: the latent chains, then the rope terms. */
  method AbsorbedScores(c: Call<real, real>, k: Weights, qa: seq<Vector>, cs: Vector, kr: Vector, t: nat, ghost s: nat)
    returns (sc: Vector)
    requires IsLinear(c, k) && AbsorbedQueries(c, k, qa, t) && cs == c.latent(s) && kr == c.ropes(s)
    ensures |sc| == c.heads && forall h: nat :: h < c.heads ==> sc[h] == Score(c, t, h, s)
  {
    var d := LatentScores(c, k, qa, cs, kr, t, s);
    for i := 0 to c.rope
      invariant ChainsAt(c, d, kr, t, s, i)
    {
      d := RopeTerms(c, kr, t, s, i, d);
    }
    sc := ScaleScores(c, d, kr, t, s);
  }

  /** The chains of all heads, times the scale. */
  method ScaleScores(c: Call<real, real>, d: Vector, ghost kr: Vector, ghost t: nat, ghost s: nat) returns (sc: Vector)
    requires IsReal(c.a) && c.Shaped() && kr == c.ropes(s) && ChainsAt(c, d, kr, t, s, c.rope)
    ensures |sc| == c.heads && forall h: nat :: h < c.heads ==> sc[h] == Score(c, t, h, s)
  {
    sc := [];
    for h := 0 to c.heads
      invariant |sc| == h && forall g: nat :: g < h ==> sc[g] == Score(c, t, g, s)
    {
      sc := sc + [d[h] * c.a.scale];
    }
  }

  method RopeTerms(c: Call<real, real>, kr: Vector, t: nat, ghost s: nat, i: nat, before: Vector) returns (d: Vector)
    requires IsReal(c.a) && i < |kr| && ChainsAt(c, before, kr, t, s, i)
    ensures ChainsAt(c, d, kr, t, s, i + 1)
  {
    d := [];
    for h := 0 to c.heads
      invariant |d| == h && forall g: nat :: g < h ==> d[g] == RopeChain(c, t, g, Expanded(c, s, g), kr, i + 1)
    {
      RealRope(c, t, h, Expanded(c, s, h), kr, i);
      d := d + [before[h] + c.query(t, h, c.nope + i) * kr[i]];
    }
  }

  /** The absorbed queries of every head. */
  ghost predicate AllAbsorbed(c: Call<real, real>, k: Weights, ab: seq<seq<Vector>>, n: nat)
    requires IsLinear(c, k) && n <= c.heads
  {
    |ab| == n && forall h: nat :: h < n ==> AbsorbedHead(c, k, ab[h], h)
  }

  ghost predicate AbsorbedHead(c: Call<real, real>, k: Weights, ah: seq<Vector>, h: nat)
    requires IsLinear(c, k) && h < c.heads
  {
    |ah| == c.tokens && forall t: nat :: t < c.tokens ==> ah[t] == Absorbed(c, k, t, h, c.nope)
  }

  method AbsorbQueries(c: Call<real, real>, k: Weights) returns (ab: seq<seq<Vector>>)
    requires IsLinear(c, k)
    ensures AllAbsorbed(c, k, ab, c.heads)
  {
    ab := [];
    for h := 0 to c.heads
      invariant AllAbsorbed(c, k, ab, h)
    {
      var ah := AbsorbHead(c, k, h);
      ab := ab + [ah];
    }
  }

  /** One token's absorbed queries, heads side by side. */
  method QueriesOf(c: Call<real, real>, ghost k: Weights, ab: seq<seq<Vector>>, t: nat) returns (qa: seq<Vector>)
    requires IsLinear(c, k) && AllAbsorbed(c, k, ab, c.heads) && t < c.tokens
    ensures AbsorbedQueries(c, k, qa, t)
  {
    qa := [];
    for h := 0 to c.heads
      invariant |qa| == h && forall g: nat :: g < h ==> qa[g] == Absorbed(c, k, t, g, c.nope)
    {
      assert AbsorbedHead(c, k, ab[h], h);
      qa := qa + [ab[h][t]];
    }
  }

  /** The scores of one position into every head's row. */
  method StoreScores(c: Call<real, real>, sc: Vector, t: nat, s: nat, before: seq<Vector>) returns (rows: seq<Vector>)
    requires c.Shaped() && t < c.tokens && s < Seen(c, t) && HeadsScored(c, before, t, s)
    requires |sc| == c.heads && forall h: nat :: h < c.heads ==> sc[h] == Score(c, t, h, s)
    ensures HeadsScored(c, rows, t, s + 1)
  {
    rows := before;
    for h := 0 to c.heads
      invariant |rows| == c.heads
      invariant forall g: nat :: g < h ==> |rows[g]| == c.Positions() && Scored(c, rows[g], t, g, s + 1)
      invariant forall g: nat :: h <= g < c.heads ==> |rows[g]| == c.Positions() && Scored(c, rows[g], t, g, s)
    {
      rows := rows[h := rows[h][s := sc[h]]];
    }
  }

  method AbsorbedToken(c: Call<real, real>, k: Weights, qa: seq<Vector>, latent: seq<Vector>, rope: seq<Vector>, t: nat)
    returns (rows: seq<Vector>)
    requires IsLinear(c, k) && t < c.tokens && AbsorbedQueries(c, k, qa, t)
    requires LatentStored(c, latent, c.Positions()) && RopesStored(c, rope, c.Positions())
    ensures HeadsScored(c, rows, t, Seen(c, t))
  {
    rows := seq(c.heads, _ => Zeros(0.0, c.Positions()));
    for s := 0 to c.cached + t + 1
      invariant HeadsScored(c, rows, t, s)
    {
      var sc := AbsorbedScores(c, k, qa, latent[s], rope[s], t, s);
      rows := StoreScores(c, sc, t, s, rows);
    }
  }

  /** Softmaxed rows and their cells, token by token. */
  ghost predicate TokensWeighted(c: Call<real, real>, rows: seq<seq<Vector>>, cells: seq<seq<Cell<real, real>>>, n: nat)
    requires c.Shaped()
  {
    |rows| == |cells| == n && forall t: nat :: t < n ==> HeadsSummed(c, rows[t], cells[t], t, 0)
  }

  method AbsorbedWeights(c: Call<real, real>, k: Weights, latent: seq<Vector>, rope: seq<Vector>)
    returns (rows: seq<seq<Vector>>, cells: seq<seq<Cell<real, real>>>)
    requires IsLinear(c, k) && LatentStored(c, latent, c.Positions()) && RopesStored(c, rope, c.Positions())
    ensures TokensWeighted(c, rows, cells, c.tokens)
  {
    var ab := AbsorbQueries(c, k);
    rows, cells := [], [];
    for t := 0 to c.tokens
      invariant TokensWeighted(c, rows, cells, t)
    {
      var qa := QueriesOf(c, k, ab, t);
      var sc := AbsorbedToken(c, k, qa, latent, rope, t);
      var r, o := SoftmaxToken(c, sc, t);
      rows, cells := rows + [r], cells + [o];
    }
  }

  // ------------------------------------------------------------------ latent sums in blocks

  /** One token and head, a block's visible positions in order. */
  method AddLatents(lora: nat, latent: seq<Vector>, p: Vector, s0: nat, e: nat, before: Vector) returns (u: Vector)
    requires s0 <= e <= |p| && Wide(latent, lora, e) && before == LatentSum(lora, p, latent, s0)
    ensures u == LatentSum(lora, p, latent, e)
  {
    u := before;
    for s := s0 to e
      invariant u == LatentSum(lora, p, latent, s)
    {
      NextLatent(lora, p, latent, s);
      u := Accumulate(u, p[s], latent[s]);
    }
  }

  /** A block for one token: nothing when the token does not see it. */
  method AddBlockToken(lora: nat, latent: seq<Vector>, p: Vector, seen: nat, s0: nat, s1: nat, before: Vector)
    returns (u: Vector)
    requires s0 <= s1 && seen <= |p| && Wide(latent, lora, seen) && before == LatentSum(lora, p, latent, Min(s0, seen))
    ensures u == LatentSum(lora, p, latent, Min(s1, seen))
  {
    u := before;
    if s0 < seen {
      u := AddLatents(lora, latent, p, s0, Min(s1, seen), before);
    }
  }

  /** u has the first n positions of a row, or as many as the token sees. */
  ghost predicate SumAt(lora: nat, latent: seq<Vector>, p: Vector, seen: nat, u: Vector, n: nat) {
    seen <= |p| && Wide(latent, lora, seen) && u == LatentSum(lora, p, latent, Min(n, seen))
  }

  ghost predicate TokenSums(lora: nat, latent: seq<Vector>, rows: seq<Vector>, seen: nat, us: seq<Vector>, n: nat) {
    |us| == |rows| && forall h: nat :: h < |rows| ==> SumAt(lora, latent, rows[h], seen, us[h], n)
  }

  ghost predicate AllSums(lora: nat, latent: seq<Vector>, rows: seq<seq<Vector>>, cached: nat, u: seq<seq<Vector>>,
                          n: nat) {
    |u| == |rows| && forall t: nat :: t < |rows| ==> TokenSums(lora, latent, rows[t], cached + t + 1, u[t], n)
  }

  method AddBlockHeads(lora: nat, latent: seq<Vector>, rows: seq<Vector>, seen: nat, s0: nat, s1: nat,
                       before: seq<Vector>)
    returns (us: seq<Vector>)
    requires s0 <= s1 && TokenSums(lora, latent, rows, seen, before, s0)
    ensures TokenSums(lora, latent, rows, seen, us, s1)
  {
    us := [];
    for h := 0 to |rows|
      invariant |us| == h && forall g: nat :: g < h ==> SumAt(lora, latent, rows[g], seen, us[g], s1)
    {
      assert SumAt(lora, latent, rows[h], seen, before[h], s0);
      var u := AddBlockToken(lora, latent, rows[h], seen, s0, s1, before[h]);
      us := us + [u];
    }
  }

  method AddBlock(lora: nat, latent: seq<Vector>, rows: seq<seq<Vector>>, cached: nat, s0: nat, s1: nat,
                  before: seq<seq<Vector>>)
    returns (u: seq<seq<Vector>>)
    requires s0 <= s1 && AllSums(lora, latent, rows, cached, before, s0)
    ensures AllSums(lora, latent, rows, cached, u, s1)
  {
    u := [];
    for t := 0 to |rows|
      invariant |u| == t && forall v: nat :: v < t ==> TokenSums(lora, latent, rows[v], cached + v + 1, u[v], s1)
    {
      var us := AddBlockHeads(lora, latent, rows[t], cached + t + 1, s0, s1, before[t]);
      u := u + [us];
    }
  }

  method NoSums(lora: nat, ghost latent: seq<Vector>, rows: seq<seq<Vector>>, ghost cached: nat)
    returns (u: seq<seq<Vector>>)
    requires forall t: nat :: t < |rows| ==> TokenReach(lora, latent, rows, cached, t)
    ensures AllSums(lora, latent, rows, cached, u, 0)
  {
    u := [];
    for t := 0 to |rows|
      invariant |u| == t && forall v: nat :: v < t ==> TokenSums(lora, latent, rows[v], cached + v + 1, u[v], 0)
    {
      assert TokenReach(lora, latent, rows, cached, t);
      var zeros := seq(|rows[t]|, _ => ZeroVector(lora));
      assert TokenSums(lora, latent, rows[t], cached + t + 1, zeros, 0);
      u := u + [zeros];
    }
  }

  ghost predicate TokenReach(lora: nat, latent: seq<Vector>, rows: seq<seq<Vector>>, cached: nat, t: nat) {
    t < |rows| && RowsReach(rows[t], cached + t + 1) && Wide(latent, lora, cached + t + 1)
  }

  /** Every row reaches as far as the token sees. */
  ghost predicate RowsReach(rows: seq<Vector>, seen: nat) {
    forall h: nat :: h < |rows| ==> seen <= |rows[h]|
  }

  /** u = sum p c for every token and head: blocks of positions outside. */
  method LatentSums(lora: nat, latent: seq<Vector>, rows: seq<seq<Vector>>, cached: nat) returns (u: seq<seq<Vector>>)
    requires forall t: nat :: t < |rows| ==> TokenReach(lora, latent, rows, cached, t)
    ensures AllSums(lora, latent, rows, cached, u, cached + |rows|)
  {
    u := NoSums(lora, latent, rows, cached);
    var s0 := 0;
    while s0 < cached + |rows|
      invariant s0 <= cached + |rows| && AllSums(lora, latent, rows, cached, u, s0)
    {
      var s1 := Min(s0 + BLOCK, cached + |rows|);
      u := AddBlock(lora, latent, rows, cached, s0, s1, u);
      s0 := s1;
    }
  }

  // ------------------------------------------------------------------ the outputs

  /** W_uv u: the kernel on a head's value rows. */
  method ApplyValues(c: Call<real, real>, k: Weights, u: Vector, ghost p: Vector, ghost latent: seq<Vector>,
                     ghost t: nat, h: nat)
    returns (o: Vector)
    requires IsLinear(c, k) && h < c.heads && t < c.tokens && Weighted(c, p, t, h)
    requires LatentStored(c, latent, c.Positions()) && Wide(latent, k.lora, c.Positions())
    requires u == LatentSum(k.lora, p, latent, Seen(c, t))
    ensures Summed(c, o, t, h, Seen(c, t))
  {
    o := [];
    for j := 0 to c.value
      invariant |o| == j && forall i: nat :: i < j ==> o[i] == ValueChain(c, t, h, i, Seen(c, t))
    {
      var next := ApplyRow(c, k, u, p, latent, t, h, j);
      o := o + [next];
    }
  }

  method ApplyRow(c: Call<real, real>, k: Weights, u: Vector, ghost p: Vector, ghost latent: seq<Vector>, ghost t: nat,
                  h: nat, j: nat)
    returns (x: real)
    requires IsLinear(c, k) && h < c.heads && t < c.tokens && j < c.value && Weighted(c, p, t, h)
    requires LatentStored(c, latent, c.Positions()) && Wide(latent, k.lora, c.Positions())
    requires u == LatentSum(k.lora, p, latent, Seen(c, t))
    ensures x == ValueChain(c, t, h, j, Seen(c, t))
  {
    KeyOfLatent(c, k, h, c.nope + j, 0);
    var row := k.w[h][c.nope + j];
    ValueOfSum(c, k, t, h, j, p, latent, row, Seen(c, t));
    x := DotOf(row, u, k.lora);
  }

  lemma {:induction false} RowWeighted(c: Call<real, real>, rows: seq<seq<Vector>>, cells: seq<seq<Cell<real, real>>>,
                                       t: nat, h: nat)
    requires c.Shaped() && TokensWeighted(c, rows, cells, c.tokens) && t < c.tokens && h < c.heads
    ensures |rows[t]| == |cells[t]| == c.heads && Weighted(c, rows[t][h], t, h)
    ensures cells[t][h].scores == ScoreRow(c, t, h) && cells[t][h].z == ZOf(c, t, h)
  {
    assert HeadsSummed(c, rows[t], cells[t], t, 0);
    assert ValuesTo(c, rows[t][h], cells[t][h], t, h, 0);
  }

  lemma {:induction false} WeightedReach(c: Call<real, real>, rows: seq<seq<Vector>>, cells: seq<seq<Cell<real, real>>>,
                                         t: nat)
    requires c.Shaped() && TokensWeighted(c, rows, cells, c.tokens) && t < c.tokens
    ensures RowsReach(rows[t], Seen(c, t))
  {
    assert HeadsSummed(c, rows[t], cells[t], t, 0);
    forall h: nat | h < |rows[t]|
      ensures Seen(c, t) <= |rows[t][h]|
    {
      RowWeighted(c, rows, cells, t, h);
    }
  }

  method AbsorbedSums(c: Call<real, real>, k: Weights, latent: seq<Vector>, rows: seq<seq<Vector>>,
                      ghost cells: seq<seq<Cell<real, real>>>)
    returns (u: seq<seq<Vector>>)
    requires IsLinear(c, k) && LatentStored(c, latent, c.Positions()) && TokensWeighted(c, rows, cells, c.tokens)
    ensures AllSums(k.lora, latent, rows, c.cached, u, c.Positions())
  {
    StoredIsWide(c, k, latent);
    forall t: nat | t < |rows|
      ensures TokenReach(k.lora, latent, rows, c.cached, t)
    {
      WeightedReach(c, rows, cells, t);
    }
    u := LatentSums(k.lora, latent, rows, c.cached);
  }

  method AbsorbedCell(c: Call<real, real>, k: Weights, u: seq<Vector>, rows: seq<Vector>, cells: seq<Cell<real, real>>,
                      ghost latent: seq<Vector>, t: nat, h: nat)
    returns (cell: Cell<real, real>)
    requires IsLinear(c, k) && t < c.tokens && h < c.heads && LatentStored(c, latent, c.Positions())
    requires HeadsSummed(c, rows, cells, t, 0)
    requires TokenSums(k.lora, latent, rows, Seen(c, t), u, c.Positions())
    ensures Finished(c, cell, t, h)
  {
    StoredIsWide(c, k, latent);
    assert ValuesTo(c, rows[h], cells[h], t, h, 0);
    assert SumAt(k.lora, latent, rows[h], Seen(c, t), u[h], c.Positions());
    var o := ApplyValues(c, k, u[h], rows[h], latent, t, h);
    cell := cells[h].(o := o);
  }

  lemma {:induction false} TokenHeads(c: Call<real, real>, rows: seq<seq<Vector>>, cells: seq<seq<Cell<real, real>>>,
                                      t: nat)
    requires c.Shaped() && t < c.tokens && TokensWeighted(c, rows, cells, c.tokens)
    ensures HeadsSummed(c, rows[t], cells[t], t, 0)
  {}

  lemma {:induction false} SumsOfToken(lora: nat, latent: seq<Vector>, rows: seq<seq<Vector>>, cached: nat,
                                       u: seq<seq<Vector>>, n: nat, t: nat, seen: nat)
    requires AllSums(lora, latent, rows, cached, u, n) && t < |rows| && seen == cached + t + 1
    ensures TokenSums(lora, latent, rows[t], seen, u[t], n)
  {}

  method AbsorbedCells(c: Call<real, real>, k: Weights, u: seq<Vector>, rows: seq<Vector>, cells: seq<Cell<real, real>>,
                       ghost latent: seq<Vector>, t: nat)
    returns (done: seq<Cell<real, real>>)
    requires IsLinear(c, k) && t < c.tokens && LatentStored(c, latent, c.Positions())
             && HeadsSummed(c, rows, cells, t, 0)
    requires TokenSums(k.lora, latent, rows, Seen(c, t), u, c.Positions())
    ensures |done| == c.heads && forall h: nat :: h < c.heads ==> Finished(c, done[h], t, h)
  {
    done := [];
    for h := 0 to c.heads
      invariant |done| == h && forall g: nat :: g < h ==> Finished(c, done[g], t, g)
    {
      var cell := AbsorbedCell(c, k, u, rows, cells, latent, t, h);
      done := done + [cell];
    }
  }

  /** A: refused for weights it cannot read or heads and latents too wide. Otherwise its cells are E's,
      for every weight, cache and query. kv_b is applied to no position. */
  method AttendA(c: Call<real, real>, k: Weights, kind: WeightType, latent: seq<Vector>, rope: seq<Vector>,
                 out: array2<Cell<real, real>>, counter: Counter)
    returns (status: int)
    requires IsLinear(c, k) && Fits(c, out)
    requires LatentStored(c, latent, c.Positions()) && RopesStored(c, rope, c.Positions())
    modifies out, counter
    ensures counter.rows == old(counter.rows)
    ensures status == if (kind != Bf16 && kind != F32) || c.heads > MAX_HEADS || k.lora > MAX_LORA then -1 else 0
    ensures status == 0 ==> AllFinished(c, out)
  {
    if (kind != Bf16 && kind != F32) || c.heads > MAX_HEADS || k.lora > MAX_LORA {
      return -1;
    }
    var rows, cells := AbsorbedWeights(c, k, latent, rope);
    var u := AbsorbedSums(c, k, latent, rows, cells);
    for t := 0 to c.tokens
      invariant counter.rows == old(counter.rows)
      invariant forall v: nat, h: nat :: v < t && h < c.heads ==> Finished(c, out[v, h], v, h)
    {
      TokenHeads(c, rows, cells, t);
      SumsOfToken(k.lora, latent, rows, c.cached, u, c.Positions(), t, Seen(c, t));
      var done := AbsorbedCells(c, k, u[t], rows[t], cells[t], latent, t);
      StoreToken(c, done, out, t);
    }
    status := 0;
  }
}
