/** Cached attention over uninterpreted floating point: the order of every operation is the value.
    F and D stand for float and double; no law of arithmetic is assumed of their operations. */
module MlaAttentions {
  import opened Numbers

  /** The operations of the two floating-point types. */
  datatype Arith<!F, !D> = Arith(zero: F, zeroD: D, lowest: F, scale: F,
                                 widen: F -> D, narrow: D -> F, plusD: (D, D) -> D, timesD: (D, D) -> D,
                                     overD: (D, D) -> D,
                                 plus: (F, F) -> F, times: (F, F) -> F, minus: (F, F) -> F, exp: F -> F,
                                     greater: (F, F) -> bool)

  /** One layer and one call: T new tokens after C cached positions. kvb is the kernel of kv_b: output
      row i of head h for a latent, its nope key rows first and its value rows after them. */
  datatype Call<!F, !D> = Call(a: Arith<F, D>, heads: nat, nope: nat, rope: nat, value: nat, tokens: nat, cached: nat,
                               query: (nat, nat, nat) -> F, latent: nat -> seq<F>, ropes: nat -> seq<F>,
                               kvb: (nat, nat, seq<F>) -> F)
  {
    function Positions(): nat {
      cached + tokens
    }

    function HeadRows(): nat {
      nope + value
    }

    ghost predicate Shaped() {
      forall s: nat :: |ropes(s)| == rope
    }
  }

  // ------------------------------------------------------------------ what attention computes

  /** kv_b applied to a latent: each head's key and value rows. */
  function KvbOf<F, D>(c: Call<F, D>, latent: seq<F>, h: nat): (r: seq<F>)
    ensures |r| == c.HeadRows()
  {
    seq(c.HeadRows(), i requires 0 <= i < c.HeadRows() => c.kvb(h, i, latent))
  }

  ghost function Expanded<F, D>(c: Call<F, D>, s: nat, h: nat): seq<F> {
    KvbOf(c, c.latent(s), h)
  }

  /** The double chain of a score: the nope terms, then the rope terms, in order. */
  ghost function NopeChain<F, D>(c: Call<F, D>, t: nat, h: nat, ks: seq<F>, n: nat): D
    requires n <= |ks|
  {
    if n == 0 then c.a.zeroD
    else c.a.plusD(NopeChain(c, t, h, ks, n - 1), c.a.timesD(c.a.widen(c.query(t, h, n - 1)), c.a.widen(ks[n - 1])))
  }

  ghost function RopeChain<F, D>(c: Call<F, D>, t: nat, h: nat, ks: seq<F>, kr: seq<F>, n: nat): D
    requires c.nope <= |ks| && n <= |kr|
  {
    if n == 0 then NopeChain(c, t, h, ks, c.nope)
    else c.a.plusD(RopeChain(c, t, h, ks, kr, n - 1),
                   c.a.timesD(c.a.widen(c.query(t, h, c.nope + n - 1)), c.a.widen(kr[n - 1])))
  }

  ghost function Score<F, D>(c: Call<F, D>, t: nat, h: nat, s: nat): F
    requires c.Shaped()
  {
    c.a.times(c.a.narrow(RopeChain(c, t, h, Expanded(c, s, h), c.ropes(s), c.rope)), c.a.scale)
  }

  /** The softmax of a row's first n scores: maximum, exponentials, normaliser, quotients. */
  ghost function Maximum<F, D>(a: Arith<F, D>, row: seq<F>, n: nat): F
    requires n <= |row|
  {
    if n == 0 then a.lowest
    else if a.greater(row[n - 1], Maximum(a, row, n - 1)) then row[n - 1] else Maximum(a, row, n - 1)
  }

  ghost function Exponential<F, D>(a: Arith<F, D>, row: seq<F>, n: nat, s: nat): F
    requires n <= |row| && s < |row|
  {
    a.exp(a.minus(row[s], Maximum(a, row, n)))
  }

  ghost function Normaliser<F, D>(a: Arith<F, D>, row: seq<F>, n: nat, k: nat): D
    requires k <= n <= |row|
  {
    if k == 0 then a.zeroD else a.plusD(Normaliser(a, row, n, k - 1), a.widen(Exponential(a, row, n, k - 1)))
  }

  ghost function Probability<F, D>(a: Arith<F, D>, row: seq<F>, n: nat, s: nat): F
    requires n <= |row| && s < |row|
  {
    a.narrow(a.overD(a.widen(Exponential(a, row, n, s)), Normaliser(a, row, n, n)))
  }

  /** The positions that query token t sees. */
  function Seen<F, D>(c: Call<F, D>, t: nat): nat {
    c.cached + t + 1
  }

  ghost function ScoreRow<F, D>(c: Call<F, D>, t: nat, h: nat): (row: seq<F>)
    requires c.Shaped()
    ensures |row| == Seen(c, t)
  {
    seq(Seen(c, t), s requires 0 <= s < Seen(c, t) => Score(c, t, h, s))
  }

  ghost function Weight<F, D>(c: Call<F, D>, t: nat, h: nat, s: nat): F
    requires c.Shaped() && s < Seen(c, t)
  {
    Probability(c.a, ScoreRow(c, t, h), Seen(c, t), s)
  }

  ghost function ZOf<F, D>(c: Call<F, D>, t: nat, h: nat): D
    requires c.Shaped()
  {
    Normaliser(c.a, ScoreRow(c, t, h), Seen(c, t), Seen(c, t))
  }

  /** Element j of the value sum over the first n positions: one float chain, positions ascending. */
  ghost function ValueChain<F, D>(c: Call<F, D>, t: nat, h: nat, j: nat, n: nat): F
    requires c.Shaped() && n <= Seen(c, t) && j < c.value
  {
    if n == 0 then c.a.zero
    else c.a.plus(ValueChain(c, t, h, j, n - 1), c.a.times(Weight(c, t, h, n - 1), Expanded(c, n - 1, h)[c.nope + j]))
  }

  // ------------------------------------------------------------------ kernels

  /** Rows of kv_b applied so far, by every call that applies any. */
  class Counter {
    var rows: nat

    constructor ()
      ensures rows == 0
    {
      rows := 0;
    }
  }

  /** One position's rows of every head. */
  ghost predicate IsBlock<F, D>(c: Call<F, D>, block: seq<seq<F>>) {
    |block| == c.heads && forall h: nat :: h < c.heads ==> |block[h]| == c.HeadRows()
  }

  function WithKeys<F, D>(c: Call<F, D>, row: seq<F>, latent: seq<F>, h: nat): (r: seq<F>)
    requires |row| == c.HeadRows()
    ensures |r| == c.HeadRows()
  {
    KvbOf(c, latent, h)[..c.nope] + row[c.nope..]
  }

  function WithValues<F, D>(c: Call<F, D>, row: seq<F>, latent: seq<F>, h: nat): (r: seq<F>)
    requires |row| == c.HeadRows()
    ensures |r| == c.HeadRows()
  {
    row[..c.nope] + KvbOf(c, latent, h)[c.nope..]
  }

  /** The rows of the whole matrix. */
  function KvbRows<F, D>(c: Call<F, D>): nat {
    Times(c.heads, c.HeadRows())
  }

  /** One application: every head's rows. */
  method Kvb<F(0), D>(c: Call<F, D>, latent: seq<F>, counter: Counter) returns (out: seq<seq<F>>)
    modifies counter
    ensures IsBlock(c, out) && forall h: nat :: h < c.heads ==> out[h] == KvbOf(c, latent, h)
    ensures counter.rows == old(counter.rows) + KvbRows(c)
  {
    counter.rows := counter.rows + KvbRows(c);
    out := seq(c.heads, h requires 0 <= h < c.heads => KvbOf(c, latent, h));
  }

  /** The key rows alone, written where an application writes them; the value rows stay as they were. */
  method KvbKeys<F(0), D>(c: Call<F, D>, block: seq<seq<F>>, latent: seq<F>, counter: Counter)
    returns (out: seq<seq<F>>)
    requires IsBlock(c, block)
    modifies counter
    ensures IsBlock(c, out) && forall h: nat :: h < c.heads ==> out[h] == WithKeys(c, block[h], latent, h)
    ensures counter.rows == old(counter.rows) + Times(c.heads, c.nope)
  {
    counter.rows := counter.rows + Times(c.heads, c.nope);
    out := seq(c.heads, h requires 0 <= h < c.heads => WithKeys(c, block[h], latent, h));
  }

  /** The value rows alone. */
  method KvbValues<F(0), D>(c: Call<F, D>, block: seq<seq<F>>, latent: seq<F>, counter: Counter)
    returns (out: seq<seq<F>>)
    requires IsBlock(c, block)
    modifies counter
    ensures IsBlock(c, out) && forall h: nat :: h < c.heads ==> out[h] == WithValues(c, block[h], latent, h)
    ensures counter.rows == old(counter.rows) + Times(c.heads, c.value)
  {
    counter.rows := counter.rows + Times(c.heads, c.value);
    out := seq(c.heads, h requires 0 <= h < c.heads => WithValues(c, block[h], latent, h));
  }

  // ------------------------------------------------------------------ steps the variants share

  /** One score chain. Only the first nope entries of the key row are read. */
  method Dot<F, D>(c: Call<F, D>, t: nat, h: nat, ks: seq<F>, kr: seq<F>) returns (d: D)
    requires c.nope <= |ks| && |kr| == c.rope
    ensures d == RopeChain(c, t, h, ks, kr, c.rope)
  {
    d := c.a.zeroD;
    for i := 0 to c.nope
      invariant d == NopeChain(c, t, h, ks, i)
    {
      d := c.a.plusD(d, c.a.timesD(c.a.widen(c.query(t, h, i)), c.a.widen(ks[i])));
    }
    for i := 0 to c.rope
      invariant d == RopeChain(c, t, h, ks, kr, i)
    {
      d := c.a.plusD(d, c.a.timesD(c.a.widen(c.query(t, h, c.nope + i)), c.a.widen(kr[i])));
    }
  }

  /** Four chains in flight: four sums, each fed its own position's terms in order. */
  method Nope4<F, D>(c: Call<F, D>, t: nat, h: nat, k0: seq<F>, k1: seq<F>, k2: seq<F>, k3: seq<F>)
    returns (d0: D, d1: D, d2: D, d3: D)
    requires c.nope <= |k0| && c.nope <= |k1| && c.nope <= |k2| && c.nope <= |k3|
    ensures d0 == NopeChain(c, t, h, k0, c.nope) && d1 == NopeChain(c, t, h, k1, c.nope)
    ensures d2 == NopeChain(c, t, h, k2, c.nope) && d3 == NopeChain(c, t, h, k3, c.nope)
  {
    d0, d1, d2, d3 := c.a.zeroD, c.a.zeroD, c.a.zeroD, c.a.zeroD;
    for i := 0 to c.nope
      invariant d0 == NopeChain(c, t, h, k0, i) && d1 == NopeChain(c, t, h, k1, i)
      invariant d2 == NopeChain(c, t, h, k2, i) && d3 == NopeChain(c, t, h, k3, i)
    {
      var q := c.a.widen(c.query(t, h, i));
      d0, d1 := c.a.plusD(d0, c.a.timesD(q, c.a.widen(k0[i]))), c.a.plusD(d1, c.a.timesD(q, c.a.widen(k1[i])));
      d2, d3 := c.a.plusD(d2, c.a.timesD(q, c.a.widen(k2[i]))), c.a.plusD(d3, c.a.timesD(q, c.a.widen(k3[i])));
    }
  }

  /** The next rope term of one chain. */
  method RopeTerm<F, D>(c: Call<F, D>, ghost t: nat, ghost h: nat, q: D, d: D, ghost ks: seq<F>, kr: seq<F>, i: nat)
    returns (d': D)
    requires c.nope <= |ks| && i < |kr| && d == RopeChain(c, t, h, ks, kr, i)
             && q == c.a.widen(c.query(t, h, c.nope + i))
    ensures d' == RopeChain(c, t, h, ks, kr, i + 1)
  {
    d' := c.a.plusD(d, c.a.timesD(q, c.a.widen(kr[i])));
  }

  method Dot4<F, D>(c: Call<F, D>, t: nat, h: nat, k0: seq<F>, k1: seq<F>, k2: seq<F>, k3: seq<F>, r0: seq<F>,
                    r1: seq<F>, r2: seq<F>, r3: seq<F>)
    returns (d0: D, d1: D, d2: D, d3: D)
    requires c.nope <= |k0| && c.nope <= |k1| && c.nope <= |k2| && c.nope <= |k3|
    requires |r0| == |r1| == |r2| == |r3| == c.rope
    ensures d0 == RopeChain(c, t, h, k0, r0, c.rope) && d1 == RopeChain(c, t, h, k1, r1, c.rope)
    ensures d2 == RopeChain(c, t, h, k2, r2, c.rope) && d3 == RopeChain(c, t, h, k3, r3, c.rope)
  {
    d0, d1, d2, d3 := Nope4(c, t, h, k0, k1, k2, k3);
    for i := 0 to c.rope
      invariant d0 == RopeChain(c, t, h, k0, r0, i) && d1 == RopeChain(c, t, h, k1, r1, i)
      invariant d2 == RopeChain(c, t, h, k2, r2, i) && d3 == RopeChain(c, t, h, k3, r3, i)
    {
      var q := c.a.widen(c.query(t, h, c.nope + i));
      d0 := RopeTerm(c, t, h, q, d0, k0, r0, i);
      d1 := RopeTerm(c, t, h, q, d1, k1, r1, i);
      d2 := RopeTerm(c, t, h, q, d2, k2, r2, i);
      d3 := RopeTerm(c, t, h, q, d3, k3, r3, i);
    }
  }

  /** Key rows that agree in their first nope entries give the same chain. */
  lemma {:induction false} SameNope<F, D>(c: Call<F, D>, t: nat, h: nat, ks: seq<F>, ls: seq<F>, n: nat)
    requires n <= |ks| && n <= |ls| && ks[..n] == ls[..n]
    ensures NopeChain(c, t, h, ks, n) == NopeChain(c, t, h, ls, n)
  {
    if n > 0 {
      assert ks[..n][n - 1] == ls[..n][n - 1];
      assert ks[..n - 1] == ks[..n][..n - 1] == ls[..n - 1];
      SameNope(c, t, h, ks, ls, n - 1);
    }
  }

  lemma {:induction false} SameKeys<F, D>(c: Call<F, D>, t: nat, h: nat, ks: seq<F>, ls: seq<F>, kr: seq<F>, n: nat)
    requires c.nope <= |ks| && c.nope <= |ls| && ks[..c.nope] == ls[..c.nope] && n <= |kr|
    ensures RopeChain(c, t, h, ks, kr, n) == RopeChain(c, t, h, ls, kr, n)
  {
    if n == 0 {
      SameNope(c, t, h, ks, ls, c.nope);
    } else {
      SameKeys(c, t, h, ks, ls, kr, n - 1);
    }
  }

  /** The softmax of the first n entries in place: three passes. */
  method SoftmaxRow<F, D>(a: Arith<F, D>, row: seq<F>, n: nat) returns (r: seq<F>, z: D)
    requires n <= |row|
    ensures |r| == |row| && r[n..] == row[n..] && forall s :: 0 <= s < n ==> r[s] == Probability(a, row, n, s)
    ensures z == Normaliser(a, row, n, n)
  {
    var m := a.lowest;
    for s := 0 to n
      invariant m == Maximum(a, row, s)
    {
      if a.greater(row[s], m) {
        m := row[s];
      }
    }
    r, z := row, a.zeroD;
    for s := 0 to n
      invariant |r| == |row| && r[s..] == row[s..] && z == Normaliser(a, row, n, s)
      invariant forall k :: 0 <= k < s ==> r[k] == Exponential(a, row, n, k)
    {
      r := r[s := a.exp(a.minus(r[s], m))];
      z := a.plusD(z, a.widen(r[s]));
    }
    for s := 0 to n
      invariant |r| == |row| && r[n..] == row[n..]
      invariant forall k :: 0 <= k < s ==> r[k] == Probability(a, row, n, k)
      invariant forall k :: s <= k < n ==> r[k] == Exponential(a, row, n, k)
    {
      r := r[s := a.narrow(a.overD(a.widen(r[s]), z))];
    }
  }

  /** o[j] += p * v[j] for a value row that starts at an offset. */
  method AddScaled<F, D>(a: Arith<F, D>, o: seq<F>, p: F, row: seq<F>, offset: nat) returns (r: seq<F>)
    requires |row| >= offset + |o|
    ensures |r| == |o| && forall j :: 0 <= j < |o| ==> r[j] == a.plus(o[j], a.times(p, row[offset + j]))
  {
    r := o;
    for j := 0 to |o|
      invariant |r| == |o| && r[j..] == o[j..]
      invariant forall k :: 0 <= k < j ==> r[k] == a.plus(o[k], a.times(p, row[offset + k]))
    {
      r := r[j := a.plus(r[j], a.times(p, row[offset + j]))];
    }
  }

  // ------------------------------------------------------------------ the caches

  /** The rope rows of the first n positions are stored. */
  ghost predicate RopesStored<F, D>(c: Call<F, D>, rope: seq<seq<F>>, n: nat) {
    n <= |rope| && forall s: nat :: s < n ==> rope[s] == c.ropes(s)
  }

  /** The expanded cache holds kv_b of each latent: the coupling of the two layouts. */
  ghost predicate ExpandedStored<F, D>(c: Call<F, D>, kv: seq<seq<seq<F>>>, n: nat) {
    n <= |kv| && forall s: nat :: s < n ==> ExpandedAt(c, kv[s], s)
  }

  ghost predicate ExpandedAt<F, D>(c: Call<F, D>, block: seq<seq<F>>, s: nat) {
    |block| == c.heads && forall h: nat :: h < c.heads ==> block[h] == Expanded(c, s, h)
  }

  ghost predicate LatentStored<F, D>(c: Call<F, D>, latent: seq<seq<F>>, n: nat) {
    n <= |latent| && forall s: nat :: s < n ==> latent[s] == c.latent(s)
  }

  /** Append the new tokens to the expanded cache: one application of kv_b each. */
  method AppendExpanded<F(0), D>(c: Call<F, D>, kv: array<seq<seq<F>>>, rope: array<seq<F>>, counter: Counter)
    requires kv.Length >= c.Positions() && rope.Length >= c.Positions()
    requires (kv as object) != rope && ExpandedStored(c, kv[..], c.cached) && RopesStored(c, rope[..], c.cached)
    modifies kv, rope, counter
    ensures ExpandedStored(c, kv[..], c.Positions()) && RopesStored(c, rope[..], c.Positions())
    ensures counter.rows == old(counter.rows) + Times(c.tokens, KvbRows(c))
  {
    for t := 0 to c.tokens
      invariant ExpandedStored(c, kv[..], c.cached + t) && RopesStored(c, rope[..], c.cached + t)
      invariant counter.rows == old(counter.rows) + Times(t, KvbRows(c))
    {
      var p := c.cached + t;
      rope[p] := c.ropes(p);
      var block := Kvb(c, c.latent(p), counter);
      kv[p] := block;
      assert ExpandedAt(c, block, p);
      TimesNext(t, KvbRows(c));
    }
  }

  /** Append the new tokens to the latent cache: kv_b is not applied. */
  method AppendLatent<F(0), D>(c: Call<F, D>, latent: array<seq<F>>, rope: array<seq<F>>)
    requires latent.Length >= c.Positions() && rope.Length >= c.Positions()
    requires latent != rope && LatentStored(c, latent[..], c.cached) && RopesStored(c, rope[..], c.cached)
    modifies latent, rope
    ensures LatentStored(c, latent[..], c.Positions()) && RopesStored(c, rope[..], c.Positions())
  {
    for t := 0 to c.tokens
      invariant LatentStored(c, latent[..], c.cached + t) && RopesStored(c, rope[..], c.cached + t)
    {
      var p := c.cached + t;
      rope[p] := c.ropes(p);
      latent[p] := c.latent(p);
    }
  }

  // ------------------------------------------------------------------ results

  /** o holds the value sums over the first n positions. */
  ghost predicate Summed<F, D>(c: Call<F, D>, o: seq<F>, t: nat, h: nat, n: nat)
    requires c.Shaped() && n <= Seen(c, t)
  {
    |o| == c.value && forall j: nat :: j < c.value ==> o[j] == ValueChain(c, t, h, j, n)
  }

  /** A finished (token, head): its output row, its raw scores and its normaliser. */
  ghost predicate Attended<F, D>(c: Call<F, D>, o: seq<F>, scores: seq<F>, z: D, t: nat, h: nat)
    requires c.Shaped()
  {
    Summed(c, o, t, h, Seen(c, t)) && scores == ScoreRow(c, t, h) && z == ZOf(c, t, h)
  }

  /** Add position n to a value row: the row may sit anywhere, as long as it holds kv_b's value rows. */
  method AddPosition<F, D>(c: Call<F, D>, o: seq<F>, p: F, row: seq<F>, offset: nat, ghost t: nat, ghost h: nat,
                           ghost n: nat)
    returns (r: seq<F>)
    requires c.Shaped() && n < Seen(c, t) && Summed(c, o, t, h, n) && p == Weight(c, t, h, n)
    requires |row| >= offset + c.value && row[offset..offset + c.value] == Expanded(c, n, h)[c.nope..]
    ensures Summed(c, r, t, h, n + 1)
  {
    r := AddScaled(c.a, o, p, row, offset);
    forall j: nat | j < c.value
      ensures r[j] == ValueChain(c, t, h, j, n + 1)
    {
      SameValue(row, offset, Expanded(c, n, h), c.nope, c.value, j);
      NextValue(c, t, h, j, n, o[j], p, row[offset + j]);
    }
  }

  lemma {:induction false} NextValue<F, D>(c: Call<F, D>, t: nat, h: nat, j: nat, n: nat, before: F, p: F, x: F)
    requires c.Shaped() && n < Seen(c, t) && j < c.value && before == ValueChain(c, t, h, j, n)
    requires p == Weight(c, t, h, n) && x == Expanded(c, n, h)[c.nope + j]
    ensures c.a.plus(before, c.a.times(p, x)) == ValueChain(c, t, h, j, n + 1)
  {}

  lemma {:induction false} SameValue<F>(row: seq<F>, offset: nat, v: seq<F>, nope: nat, value: nat, j: nat)
    requires |row| >= offset + value && |v| == nope + value && row[offset..offset + value] == v[nope..] && j < value
    ensures row[offset + j] == v[nope + j]
  {
    assert row[offset..offset + value][j] == v[nope..][j];
  }

  /** The first n entries of a row are scores. */
  ghost predicate Scored<F, D>(c: Call<F, D>, row: seq<F>, t: nat, h: nat, n: nat)
    requires c.Shaped()
  {
    n <= |row| && forall s: nat :: s < n ==> row[s] == Score(c, t, h, s)
  }

  /** The first n entries of a row are probabilities. */
  ghost predicate Weighted<F, D>(c: Call<F, D>, row: seq<F>, t: nat, h: nat)
    requires c.Shaped()
  {
    Seen(c, t) <= |row| && forall s: nat :: s < Seen(c, t) ==> row[s] == Weight(c, t, h, s)
  }

  lemma {:induction false} PrefixMaximum<F, D>(a: Arith<F, D>, row: seq<F>, w: seq<F>, n: nat)
    requires n <= |row| && n <= |w| && row[..n] == w[..n]
    ensures Maximum(a, row, n) == Maximum(a, w, n)
  {
    if n > 0 {
      assert row[..n][n - 1] == w[..n][n - 1];
      assert row[..n - 1] == row[..n][..n - 1] == w[..n - 1];
      PrefixMaximum(a, row, w, n - 1);
    }
  }

  lemma {:induction false} PrefixNormaliser<F, D>(a: Arith<F, D>, row: seq<F>, w: seq<F>, n: nat, k: nat)
    requires k <= n <= |row| && n <= |w| && row[..n] == w[..n]
    ensures Normaliser(a, row, n, k) == Normaliser(a, w, n, k)
  {
    if k > 0 {
      PrefixNormaliser(a, row, w, n, k - 1);
      PrefixMaximum(a, row, w, n);
      assert row[..n][k - 1] == w[..n][k - 1];
    }
  }

  lemma {:induction false} PrefixProbability<F, D>(a: Arith<F, D>, row: seq<F>, w: seq<F>, n: nat, s: nat)
    requires s < n <= |row| && n <= |w| && row[..n] == w[..n]
    ensures Probability(a, row, n, s) == Probability(a, w, n, s)
  {
    PrefixNormaliser(a, row, w, n, n);
    PrefixMaximum(a, row, w, n);
    assert row[..n][s] == w[..n][s];
  }

  /** Softmax of a scored row that may be longer than what the token sees. */
  method SoftmaxScores<F, D>(c: Call<F, D>, row: seq<F>, ghost t: nat, ghost h: nat, n: nat) returns (r: seq<F>, z: D)
    requires c.Shaped() && n == Seen(c, t) && Scored(c, row, t, h, n)
    ensures Weighted(c, r, t, h) && |r| == |row| && z == ZOf(c, t, h)
  {
    r, z := SoftmaxRow(c.a, row, n);
    ghost var w := ScoreRow(c, t, h);
    assert row[..n] == w[..n];
    PrefixNormaliser(c.a, row, w, n, n);
    forall s: nat | s < n
      ensures r[s] == Weight(c, t, h, s)
    {
      PrefixProbability(c.a, row, w, n, s);
    }
  }
}
