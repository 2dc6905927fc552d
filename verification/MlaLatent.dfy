/** The two latent variants: kv_b is applied again whenever a position is used, twice a token in halves,
    or once a call with the value rows of the first positions kept. Both leave what E leaves. */
module MlaLatents {
  import opened Numbers
  import opened MlaAttentions
  import opened MlaVariants

  // ------------------------------------------------------------------ L0

  /** Score rows of every head for one token, up to position n. */
  ghost predicate HeadsScored<F, D>(c: Call<F, D>, sc: seq<seq<F>>, t: nat, n: nat)
    requires c.Shaped() && n <= Seen(c, t)
  {
    |sc| == c.heads && forall h: nat :: h < c.heads ==> |sc[h]| == c.Positions() && Scored(c, sc[h], t, h, n)
  }

  /** A key row rebuilt for this position: only its first nope entries matter. */
  ghost predicate HasKeys<F, D>(c: Call<F, D>, row: seq<F>, s: nat, h: nat) {
    |row| == c.HeadRows() && row[..c.nope] == Expanded(c, s, h)[..c.nope]
  }

  method ScoreRebuilt<F, D>(c: Call<F, D>, row: seq<F>, kr: seq<F>, t: nat, h: nat, ghost s: nat) returns (score: F)
    requires c.Shaped() && HasKeys(c, row, s, h) && kr == c.ropes(s)
    ensures score == Score(c, t, h, s)
  {
    var d := Dot(c, t, h, row, kr);
    SameKeys(c, t, h, row, Expanded(c, s, h), kr, c.rope);
    score := c.a.times(c.a.narrow(d), c.a.scale);
  }

  /** Position s: rebuild the key rows of every head and score the token against them. */
  method ScorePosition<F(0), D>(c: Call<F, D>, kb: seq<seq<F>>, lat: seq<F>, kr: seq<F>, t: nat, s: nat,
                                before: seq<seq<F>>,
                                counter: Counter)
    returns (sc: seq<seq<F>>, kb': seq<seq<F>>)
    requires c.Shaped() && t < c.tokens && s < Seen(c, t) && IsBlock(c, kb) && lat == c.latent(s) && kr == c.ropes(s)
    requires HeadsScored(c, before, t, s)
    modifies counter
    ensures HeadsScored(c, sc, t, s + 1) && IsBlock(c, kb')
    ensures counter.rows == old(counter.rows) + Times(c.heads, c.nope)
  {
    kb' := KvbKeys(c, kb, lat, counter);
    sc := before;
    for h := 0 to c.heads
      invariant |sc| == c.heads
      invariant forall k: nat :: k < h ==> |sc[k]| == c.Positions() && Scored(c, sc[k], t, k, s + 1)
      invariant forall k: nat :: h <= k < c.heads ==> |sc[k]| == c.Positions() && Scored(c, sc[k], t, k, s)
      invariant counter.rows == old(counter.rows) + Times(c.heads, c.nope)
    {
      assert kb'[h] == WithKeys(c, kb[h], lat, h);
      var score := ScoreRebuilt(c, kb'[h], kr, t, h, s);
      sc := sc[h := sc[h][s := score]];
    }
  }

  /** The score pass of one token. */
  method ScoreToken<F(0), D>(c: Call<F, D>, kb0: seq<seq<F>>, latent: seq<seq<F>>, rope: seq<seq<F>>, t: nat,
                             counter: Counter)
    returns (sc: seq<seq<F>>, kb: seq<seq<F>>)
    requires c.Shaped() && t < c.tokens && IsBlock(c, kb0)
    requires LatentStored(c, latent, c.Positions()) && RopesStored(c, rope, c.Positions())
    modifies counter
    ensures HeadsScored(c, sc, t, Seen(c, t)) && IsBlock(c, kb)
    ensures counter.rows == old(counter.rows) + Times(Seen(c, t), Times(c.heads, c.nope))
  {
    kb := kb0;
    sc := seq(c.heads, _ => Zeros(c.a.zero, c.Positions()));
    for s := 0 to c.cached + t + 1
      invariant HeadsScored(c, sc, t, s) && IsBlock(c, kb)
      invariant counter.rows == old(counter.rows) + Times(s, Times(c.heads, c.nope))
    {
      sc, kb := ScorePosition(c, kb, latent[s], rope[s], t, s, sc, counter);
      TimesNext(s, Times(c.heads, c.nope));
    }
  }

  /** Every head's row and cell for one token: sums up to position n. */
  ghost predicate HeadsSummed<F, D>(c: Call<F, D>, rows: seq<seq<F>>, cells: seq<Cell<F, D>>, t: nat, n: nat)
    requires c.Shaped()
  {
    |rows| == |cells| == c.heads && forall h: nat :: h < c.heads ==> ValuesTo(c, rows[h], cells[h], t, h, n)
  }

  method SoftmaxToken<F(0), D>(c: Call<F, D>, sc: seq<seq<F>>, t: nat)
    returns (rows: seq<seq<F>>, cells: seq<Cell<F, D>>)
    requires c.Shaped() && t < c.tokens && HeadsScored(c, sc, t, Seen(c, t))
    ensures HeadsSummed(c, rows, cells, t, 0)
  {
    rows, cells := [], [];
    for h := 0 to c.heads
      invariant |rows| == |cells| == h && forall k: nat :: k < h ==> ValuesTo(c, rows[k], cells[k], t, k, 0)
    {
      var r, cell := SoftmaxCell(c, sc[h], t, h, Seen(c, t));
      rows, cells := rows + [r], cells + [cell];
    }
  }

  /** Position s: rebuild the value rows of every head and add them. */
  method ValuePosition<F(0), D>(c: Call<F, D>, kb: seq<seq<F>>, lat: seq<F>, t: nat, s: nat, rows: seq<seq<F>>,
                                before: seq<Cell<F, D>>, counter: Counter)
    returns (cells: seq<Cell<F, D>>, kb': seq<seq<F>>)
    requires c.Shaped() && t < c.tokens && s < Seen(c, t) && IsBlock(c, kb) && lat == c.latent(s)
    requires HeadsSummed(c, rows, before, t, s)
    modifies counter
    ensures HeadsSummed(c, rows, cells, t, s + 1) && IsBlock(c, kb')
    ensures counter.rows == old(counter.rows) + Times(c.heads, c.value)
  {
    kb' := KvbValues(c, kb, lat, counter);
    cells := before;
    for h := 0 to c.heads
      invariant |cells| == c.heads
      invariant forall k: nat :: k < h ==> ValuesTo(c, rows[k], cells[k], t, k, s + 1)
      invariant forall k: nat :: h <= k < c.heads ==> ValuesTo(c, rows[k], cells[k], t, k, s)
      invariant counter.rows == old(counter.rows) + Times(c.heads, c.value)
    {
      assert kb'[h] == WithValues(c, kb[h], lat, h);
      ValueRows(c, kb'[h], s, h);
      var cell := AddValue(c, rows[h], cells[h], kb'[h], c.nope, t, h, s);
      cells := cells[h := cell];
    }
  }

  lemma {:induction false} ValueRows<F, D>(c: Call<F, D>, row: seq<F>, s: nat, h: nat)
    requires |row| == c.HeadRows() && row[c.nope..] == Expanded(c, s, h)[c.nope..]
    ensures row[c.nope..c.nope + c.value] == Expanded(c, s, h)[c.nope..]
  {}

  /** The value pass of one token. */
  method ValueToken<F(0), D>(c: Call<F, D>, kb0: seq<seq<F>>, latent: seq<seq<F>>, t: nat, rows: seq<seq<F>>,
                             cells0: seq<Cell<F, D>>, counter: Counter)
    returns (cells: seq<Cell<F, D>>, kb: seq<seq<F>>)
    requires c.Shaped() && t < c.tokens && IsBlock(c, kb0) && LatentStored(c, latent, c.Positions())
    requires HeadsSummed(c, rows, cells0, t, 0)
    modifies counter
    ensures HeadsSummed(c, rows, cells, t, Seen(c, t)) && IsBlock(c, kb)
    ensures counter.rows == old(counter.rows) + Times(Seen(c, t), Times(c.heads, c.value))
  {
    cells, kb := cells0, kb0;
    var n := Seen(c, t);
    for s := 0 to n
      invariant HeadsSummed(c, rows, cells, t, s) && IsBlock(c, kb)
      invariant counter.rows == old(counter.rows) + Times(s, Times(c.heads, c.value))
    {
      cells, kb := ValuePosition(c, kb, latent[s], t, s, rows, cells, counter);
      TimesNext(s, Times(c.heads, c.value));
    }
  }

  /** One token of L0. */
  method AttendTokenL0<F(0), D>(c: Call<F, D>, kb0: seq<seq<F>>, latent: seq<seq<F>>, rope: seq<seq<F>>, t: nat,
                                counter: Counter)
    returns (cells: seq<Cell<F, D>>, kb: seq<seq<F>>)
    requires c.Shaped() && t < c.tokens && IsBlock(c, kb0)
    requires LatentStored(c, latent, c.Positions()) && RopesStored(c, rope, c.Positions())
    modifies counter
    ensures |cells| == c.heads && forall h: nat :: h < c.heads ==> Finished(c, cells[h], t, h)
    ensures IsBlock(c, kb)
    ensures counter.rows == old(counter.rows) + Times(Seen(c, t), Times(c.heads, c.nope))
            + Times(Seen(c, t), Times(c.heads, c.value))
  {
    var sc;
    sc, kb := ScoreToken(c, kb0, latent, rope, t, counter);
    var rows;
    rows, cells := SoftmaxToken(c, sc, t);
    cells, kb := ValueToken(c, kb, latent, t, rows, cells, counter);
    forall h: nat | h < c.heads
      ensures Finished(c, cells[h], t, h)
    {
      assert ValuesTo(c, rows[h], cells[h], t, h, Seen(c, t));
    }
  }

  /** Positions seen by the first n tokens together. */
  ghost function SeenByAll<F, D>(c: Call<F, D>, n: nat): nat {
    if n == 0 then 0 else SeenByAll(c, n - 1) + Seen(c, n - 1)
  }

  lemma {:induction false} SeenByAllClosed<F, D>(c: Call<F, D>, n: nat)
    ensures SeenByAll(c, n) == n * (c.cached + 1) + n * (n - 1) / 2
  {
    if n > 0 {
      SeenByAllClosed(c, n - 1);
      Triangle(n);
      assert n * (c.cached + 1) == (n - 1) * (c.cached + 1) + (c.cached + 1);
    }
  }

  lemma {:induction false} Triangle(n: nat)
    requires n > 0
    ensures n * (n - 1) / 2 == (n - 1) * (n - 2) / 2 + (n - 1)
  {
    assert n * (n - 1) == (n - 1) * (n - 2) + 2 * (n - 1);
  }

  /** L0: token by token over the latent cache. */
  method AttendL0<F(0), D>(c: Call<F, D>, latent: seq<seq<F>>, rope: seq<seq<F>>, out: array2<Cell<F, D>>,
                           counter: Counter)
    requires c.Shaped() && Fits(c, out)
    requires LatentStored(c, latent, c.Positions()) && RopesStored(c, rope, c.Positions())
    modifies out, counter
    ensures AllFinished(c, out)
    ensures counter.rows == old(counter.rows) + Times(SeenByAll(c, c.tokens), KvbRows(c))
  {
    var kb := seq(c.heads, _ => Zeros(c.a.zero, c.HeadRows()));
    for t := 0 to c.tokens
      invariant IsBlock(c, kb)
      invariant forall u: nat, h: nat :: u < t && h < c.heads ==> Finished(c, out[u, h], u, h)
      invariant counter.rows == old(counter.rows) + Times(SeenByAll(c, t), KvbRows(c))
    {
      var cells;
      cells, kb := AttendTokenL0(c, kb, latent, rope, t, counter);
      TokenRows(c, t);
      StoreToken(c, cells, out, t);
    }
  }

  lemma {:induction false} KvbRowsSplit<F, D>(c: Call<F, D>)
    ensures KvbRows(c) == Times(c.heads, c.nope) + Times(c.heads, c.value)
  {
    TimesOfSum(c.heads, c.nope, c.value);
  }

  lemma {:induction false} TokenRows<F, D>(c: Call<F, D>, t: nat)
    ensures Times(SeenByAll(c, t + 1), KvbRows(c)) ==
            Times(SeenByAll(c, t), KvbRows(c))
              + Times(Seen(c, t), Times(c.heads, c.nope)) + Times(Seen(c, t), Times(c.heads, c.value))
  {
    TimesAdd(SeenByAll(c, t), Seen(c, t), KvbRows(c));
    KvbRowsSplit(c);
    TimesOfSum(Seen(c, t), Times(c.heads, c.nope), Times(c.heads, c.value));
  }

  /** Store one token's cells. */
  method StoreToken<F, D>(c: Call<F, D>, cells: seq<Cell<F, D>>, out: array2<Cell<F, D>>, t: nat)
    requires c.Shaped() && Fits(c, out) && t < c.tokens
    requires |cells| == c.heads && forall h: nat :: h < c.heads ==> Finished(c, cells[h], t, h)
    requires forall u: nat, h: nat :: u < t && h < c.heads ==> Finished(c, out[u, h], u, h)
    modifies out
    ensures forall u: nat, h: nat :: u < t + 1 && h < c.heads ==> Finished(c, out[u, h], u, h)
  {
    for h := 0 to c.heads
      invariant forall u: nat, k: nat :: u < t && k < c.heads ==> Finished(c, out[u, k], u, k)
      invariant forall k: nat :: k < h ==> Finished(c, out[t, k], t, k)
    {
      out[t, h] := cells[h];
    }
  }

  // ------------------------------------------------------------------ L1

  const BLOCK := 16

  /** One head of the score pass: each token's row scored up to position n, and the value rows of the
      first vcap positions kept, as far as the pass has come. */
  ghost predicate HeadScored<F, D>(c: Call<F, D>, rows: seq<seq<F>>, kept: seq<seq<F>>, h: nat, n: nat, vcap: nat)
    requires c.Shaped()
  {
    && |rows| == c.tokens && (forall t: nat :: t < c.tokens ==> ScoredTo(c, rows[t], t, h, n))
    && Kept(c, kept, h, Min(n, vcap))
  }

  ghost predicate Kept<F, D>(c: Call<F, D>, kept: seq<seq<F>>, h: nat, n: nat) {
    |kept| == n && forall s: nat :: s < n ==> kept[s] == Expanded(c, s, h)[c.nope..]
  }

  lemma {:induction false} UnseenScored<F, D>(c: Call<F, D>, row: seq<F>, t: nat, h: nat, s: nat)
    requires c.Shaped() && s >= Seen(c, t) && ScoredTo(c, row, t, h, s)
    ensures ScoredTo(c, row, t, h, s + 1)
  {}

  /** Position s of one head: score every token that sees it. */
  method ScoreTokens<F, D>(c: Call<F, D>, ks: seq<F>, kr: seq<F>, h: nat, s: nat, before: seq<seq<F>>)
    returns (rows: seq<seq<F>>)
    requires c.Shaped() && s < c.Positions() && ks == Expanded(c, s, h) && kr == c.ropes(s)
    requires |before| == c.tokens && forall t: nat :: t < c.tokens ==> ScoredTo(c, before[t], t, h, s)
    ensures |rows| == c.tokens && forall t: nat :: t < c.tokens ==> ScoredTo(c, rows[t], t, h, s + 1)
  {
    rows := before;
    var t := FirstSeeing(c, s);
    forall u: nat | u < t && u < c.tokens
      ensures ScoredTo(c, rows[u], u, h, s + 1)
    {
      UnseenScored(c, before[u], u, h, s);
    }
    while t < c.tokens
      invariant t >= FirstSeeing(c, s) && |rows| == c.tokens
      invariant forall u: nat :: u < t && u < c.tokens ==> ScoredTo(c, rows[u], u, h, s + 1)
      invariant forall u: nat :: t <= u < c.tokens ==> ScoredTo(c, rows[u], u, h, s)
    {
      var score := ScoreRebuilt(c, ks, kr, t, h, s);
      rows := rows[t := rows[t][s := score]];
      t := t + 1;
    }
  }

  /** Rebuilt positions s0 to s0 + nb - 1. */
  ghost predicate Rebuilt<F, D>(c: Call<F, D>, kbuf: seq<seq<seq<F>>>, s0: nat, nb: nat) {
    |kbuf| == nb && forall b: nat :: b < nb ==> ExpandedAt(c, kbuf[b], s0 + b)
  }

  method RebuildBlock<F(0), D>(c: Call<F, D>, latent: seq<seq<F>>, s0: nat, nb: nat, counter: Counter)
    returns (kbuf: seq<seq<seq<F>>>)
    requires s0 + nb <= c.Positions() && LatentStored(c, latent, c.Positions())
    modifies counter
    ensures Rebuilt(c, kbuf, s0, nb)
    ensures counter.rows == old(counter.rows) + Times(nb, KvbRows(c))
  {
    kbuf := [];
    for b := 0 to nb
      invariant Rebuilt(c, kbuf, s0, b)
      invariant counter.rows == old(counter.rows) + Times(b, KvbRows(c))
    {
      var block := Kvb(c, latent[s0 + b], counter);
      assert ExpandedAt(c, block, s0 + b);
      kbuf := kbuf + [block];
      TimesNext(b, KvbRows(c));
    }
  }

  /** One head's share of a block in the score pass. */
  method ScoreHeadL1<F, D>(c: Call<F, D>, kbuf: seq<seq<seq<F>>>, rope: seq<seq<F>>, h: nat, s0: nat, nb: nat,
                           vcap: nat, rows0: seq<seq<F>>, kept0: seq<seq<F>>)
    returns (rows: seq<seq<F>>, kept: seq<seq<F>>)
    requires c.Shaped() && h < c.heads && s0 + nb <= c.Positions() && Rebuilt(c, kbuf, s0, nb)
    requires RopesStored(c, rope, c.Positions()) && HeadScored(c, rows0, kept0, h, s0, vcap)
    ensures HeadScored(c, rows, kept, h, s0 + nb, vcap)
  {
    rows, kept := rows0, kept0;
    for b := 0 to nb
      invariant HeadScored(c, rows, kept, h, s0 + b, vcap)
    {
      var s := s0 + b;
      assert ExpandedAt(c, kbuf[b], s);
      rows := ScoreTokens(c, kbuf[b][h], rope[s], h, s, rows);
      if s < vcap {
        kept := kept + [kbuf[b][h][c.nope..]];
      }
    }
  }

  /** The score pass: every position rebuilt once. */
  ghost predicate PassOne<F, D>(c: Call<F, D>, rows: seq<seq<seq<F>>>, kept: seq<seq<seq<F>>>, n: nat, vcap: nat)
    requires c.Shaped()
  {
    |rows| == |kept| == c.heads && forall h: nat :: h < c.heads ==> HeadScored(c, rows[h], kept[h], h, n, vcap)
  }

  method ScoreBlockL1<F(0), D>(c: Call<F, D>, kbuf: seq<seq<seq<F>>>, rope: seq<seq<F>>, s0: nat, nb: nat, vcap: nat,
                               rows0: seq<seq<seq<F>>>, kept0: seq<seq<seq<F>>>)
    returns (rows: seq<seq<seq<F>>>, kept: seq<seq<seq<F>>>)
    requires c.Shaped() && s0 + nb <= c.Positions() && Rebuilt(c, kbuf, s0, nb)
    requires RopesStored(c, rope, c.Positions()) && PassOne(c, rows0, kept0, s0, vcap)
    ensures PassOne(c, rows, kept, s0 + nb, vcap)
  {
    rows, kept := [], [];
    for h := 0 to c.heads
      invariant |rows| == |kept| == h && forall k: nat :: k < h ==> HeadScored(c, rows[k], kept[k], k, s0 + nb, vcap)
    {
      var r, v := ScoreHeadL1(c, kbuf, rope, h, s0, nb, vcap, rows0[h], kept0[h]);
      rows, kept := rows + [r], kept + [v];
    }
  }

  method ScorePass<F(0), D>(c: Call<F, D>, latent: seq<seq<F>>, rope: seq<seq<F>>, vcap: nat, counter: Counter)
    returns (rows: seq<seq<seq<F>>>, kept: seq<seq<seq<F>>>)
    requires c.Shaped() && vcap <= c.Positions()
    requires LatentStored(c, latent, c.Positions()) && RopesStored(c, rope, c.Positions())
    modifies counter
    ensures PassOne(c, rows, kept, c.Positions(), vcap)
    ensures counter.rows == old(counter.rows) + Times(c.Positions(), KvbRows(c))
  {
    rows := seq(c.heads, _ => seq(c.tokens, _ => Zeros(c.a.zero, c.Positions())));
    kept := seq(c.heads, _ => []);
    var s0 := 0;
    while s0 < c.Positions()
      invariant PassOne(c, rows, kept, Min(s0, c.Positions()), vcap)
      invariant counter.rows == old(counter.rows) + Times(Min(s0, c.Positions()), KvbRows(c))
    {
      var nb := Min(BLOCK, c.Positions() - s0);
      var kbuf := RebuildBlock(c, latent, s0, nb, counter);
      rows, kept := ScoreBlockL1(c, kbuf, rope, s0, nb, vcap, rows, kept);
      TimesAdd(s0, nb, KvbRows(c));
      s0 := s0 + BLOCK;
    }
  }

  /** One head of the value pass. */
  ghost predicate HeadValues<F, D>(c: Call<F, D>, rows: seq<seq<F>>, cells: seq<Cell<F, D>>, h: nat, n: nat)
    requires c.Shaped()
  {
    |rows| == |cells| == c.tokens && forall t: nat :: t < c.tokens ==> ValuesTo(c, rows[t], cells[t], t, h, n)
  }

  ghost predicate PassTwo<F, D>(c: Call<F, D>, rows: seq<seq<seq<F>>>, cells: seq<seq<Cell<F, D>>>, n: nat)
    requires c.Shaped()
  {
    |rows| == |cells| == c.heads && forall h: nat :: h < c.heads ==> HeadValues(c, rows[h], cells[h], h, n)
  }

  method SoftmaxPass<F(0), D>(c: Call<F, D>, scored: seq<seq<seq<F>>>, ghost kept: seq<seq<seq<F>>>, ghost vcap: nat)
    returns (rows: seq<seq<seq<F>>>, cells: seq<seq<Cell<F, D>>>)
    requires c.Shaped() && PassOne(c, scored, kept, c.Positions(), vcap)
    ensures PassTwo(c, rows, cells, 0)
  {
    rows, cells := [], [];
    for h := 0 to c.heads
      invariant |rows| == |cells| == h && forall k: nat :: k < h ==> HeadValues(c, rows[k], cells[k], k, 0)
    {
      assert HeadScored(c, scored[h], kept[h], h, c.Positions(), vcap);
      var r, o := SoftmaxHead(c, scored[h], h);
      rows, cells := rows + [r], cells + [o];
    }
  }

  /** The positions of a block that were not kept, rebuilt again; places of kept positions are not read. */
  ghost predicate RebuiltFrom<F, D>(c: Call<F, D>, kbuf: seq<seq<seq<F>>>, s0: nat, nb: nat, vcap: nat) {
    |kbuf| == nb && forall b: nat :: b < nb && s0 + b >= vcap ==> ExpandedAt(c, kbuf[b], s0 + b)
  }

  /** Positions below n that are beyond the budget. */
  function Beyond(n: nat, vcap: nat): nat {
    if n > vcap then n - vcap else 0
  }

  method RebuildBeyond<F(0), D>(c: Call<F, D>, latent: seq<seq<F>>, s0: nat, nb: nat, vcap: nat, counter: Counter)
    returns (kbuf: seq<seq<seq<F>>>)
    requires s0 + nb <= c.Positions() && LatentStored(c, latent, c.Positions())
    modifies counter
    ensures RebuiltFrom(c, kbuf, s0, nb, vcap)
    ensures counter.rows + Times(Beyond(s0, vcap), KvbRows(c)) ==
            old(counter.rows) + Times(Beyond(s0 + nb, vcap), KvbRows(c))
  {
    kbuf := [];
    for b := 0 to nb
      invariant RebuiltFrom(c, kbuf, s0, b, vcap)
      invariant counter.rows + Times(Beyond(s0, vcap), KvbRows(c)) ==
                old(counter.rows) + Times(Beyond(s0 + b, vcap), KvbRows(c))
    {
      var block := [];
      if s0 + b >= vcap {
        block := Kvb(c, latent[s0 + b], counter);
        assert ExpandedAt(c, block, s0 + b);
        TimesNext(Beyond(s0 + b, vcap), KvbRows(c));
      }
      kbuf := kbuf + [block];
    }
  }

  /** Where pass two finds the value row of a position: kept, or rebuilt into the buffer. */
  ghost predicate SourceAt<F, D>(c: Call<F, D>, kbuf: seq<seq<seq<F>>>, kept: seq<seq<F>>, h: nat, s0: nat, s: nat,
                                 vcap: nat) {
    if s < vcap then s < |kept| && kept[s] == Expanded(c, s, h)[c.nope..]
    else s0 <= s < s0 + |kbuf| && ExpandedAt(c, kbuf[s - s0], s)
  }

  lemma {:induction false} Sources<F,
      D>(c: Call<F, D>, kbuf: seq<seq<seq<F>>>, kept: seq<seq<F>>, h: nat, s0: nat, end: nat, vcap: nat)
    requires s0 <= end && RebuiltFrom(c, kbuf, s0, end - s0, vcap) && Kept(c, kept, h, vcap)
    ensures forall s: nat :: s0 <= s < end ==> SourceAt(c, kbuf, kept, h, s0, s, vcap)
  {
    forall s: nat | s0 <= s < end
      ensures SourceAt(c, kbuf, kept, h, s0, s, vcap)
    {
      if s >= vcap {
        var b: nat := s - s0;
        assert s0 + b >= vcap && ExpandedAt(c, kbuf[b], s0 + b);
      }
    }
  }

  /** One head's share of a block in the value pass: kept rows, or rebuilt ones. */
  method ValueHeadL1<F, D>(c: Call<F, D>, kbuf: seq<seq<seq<F>>>, kept: seq<seq<F>>, h: nat, s0: nat, end: nat,
                           vcap: nat, rows: seq<seq<F>>, cells0: seq<Cell<F, D>>)
    returns (cells: seq<Cell<F, D>>)
    requires c.Shaped() && h < c.heads && s0 <= end <= c.Positions() && HeadValues(c, rows, cells0, h, s0)
    requires forall s: nat :: s0 <= s < end ==> SourceAt(c, kbuf, kept, h, s0, s, vcap)
    ensures HeadValues(c, rows, cells, h, end)
  {
    cells := cells0;
    for s := s0 to end
      invariant HeadValues(c, rows, cells, h, s)
    {
      cells := ValueAt(c, kbuf, kept, h, s0, s, vcap, rows, cells);
    }
  }

  method ValueAt<F, D>(c: Call<F, D>, kbuf: seq<seq<seq<F>>>, kept: seq<seq<F>>, h: nat, s0: nat, s: nat, vcap: nat,
                       rows: seq<seq<F>>, cells0: seq<Cell<F, D>>)
    returns (cells: seq<Cell<F, D>>)
    requires c.Shaped() && h < c.heads && s < c.Positions() && SourceAt(c, kbuf, kept, h, s0, s, vcap)
    requires HeadValues(c, rows, cells0, h, s)
    ensures HeadValues(c, rows, cells, h, s + 1)
  {
    var values, offset := if s < vcap then kept[s] else kbuf[s - s0][h], if s < vcap then 0 else c.nope;
    SourceValues(c, kbuf, kept, h, s0, s, vcap, values, offset);
    cells := AddToTokens(c, rows, cells0, values, offset, h, s);
  }

  lemma {:induction false} SourceValues<F,
      D>(c: Call<F, D>, kbuf: seq<seq<seq<F>>>, kept: seq<seq<F>>, h: nat, s0: nat, s: nat, vcap: nat,
                                              values: seq<F>, offset: nat)
    requires h < c.heads && SourceAt(c, kbuf, kept, h, s0, s, vcap)
    requires values == if s < vcap then kept[s] else kbuf[s - s0][h]
    requires offset == if s < vcap then 0 else c.nope
    ensures |values| >= offset + c.value && values[offset..offset + c.value] == Expanded(c, s, h)[c.nope..]
  {
    if s < vcap {
      assert values[0..c.value] == values;
    }
  }

  ghost predicate AllKept<F, D>(c: Call<F, D>, kept: seq<seq<seq<F>>>, vcap: nat) {
    |kept| == c.heads && forall h: nat :: h < c.heads ==> Kept(c, kept[h], h, vcap)
  }

  method ValueBlockL1<F(0), D>(c: Call<F, D>, kbuf: seq<seq<seq<F>>>, kept: seq<seq<seq<F>>>, s0: nat, end: nat,
                               vcap: nat,
                               rows: seq<seq<seq<F>>>, cells0: seq<seq<Cell<F, D>>>)
    returns (cells: seq<seq<Cell<F, D>>>)
    requires c.Shaped() && s0 <= end <= c.Positions() && vcap <= c.Positions()
    requires RebuiltFrom(c, kbuf, s0, end - s0, vcap) && AllKept(c, kept, vcap) && PassTwo(c, rows, cells0, s0)
    ensures PassTwo(c, rows, cells, end)
  {
    cells := [];
    for h := 0 to c.heads
      invariant |cells| == h && forall k: nat :: k < h ==> HeadValues(c, rows[k], cells[k], k, end)
    {
      Sources(c, kbuf, kept[h], h, s0, end, vcap);
      var o := ValueHeadL1(c, kbuf, kept[h], h, s0, end, vcap, rows[h], cells0[h]);
      cells := cells + [o];
    }
  }

  method ValuePassBlock<F(0), D>(c: Call<F, D>, latent: seq<seq<F>>, kept: seq<seq<seq<F>>>, vcap: nat,
                                 rows: seq<seq<seq<F>>>,
                                 cells0: seq<seq<Cell<F, D>>>, s0: nat, end: nat, counter: Counter)
    returns (cells: seq<seq<Cell<F, D>>>)
    requires c.Shaped() && s0 <= end <= c.Positions() && vcap <= c.Positions() && LatentStored(c, latent, c.Positions())
    requires AllKept(c, kept, vcap) && PassTwo(c, rows, cells0, s0)
    modifies counter
    ensures PassTwo(c, rows, cells, end)
    ensures counter.rows + Times(Beyond(s0, vcap), KvbRows(c)) ==
            old(counter.rows) + Times(Beyond(end, vcap), KvbRows(c))
  {
    var kbuf := RebuildBeyond(c, latent, s0, end - s0, vcap, counter);
    cells := ValueBlockL1(c, kbuf, kept, s0, end, vcap, rows, cells0);
  }

  method ValuePass<F(0), D>(c: Call<F, D>, latent: seq<seq<F>>, kept: seq<seq<seq<F>>>, vcap: nat,
                            rows: seq<seq<seq<F>>>,
                            cells0: seq<seq<Cell<F, D>>>, counter: Counter)
    returns (cells: seq<seq<Cell<F, D>>>)
    requires c.Shaped() && vcap <= c.Positions() && LatentStored(c, latent, c.Positions())
    requires AllKept(c, kept, vcap) && PassTwo(c, rows, cells0, 0)
    modifies counter
    ensures PassTwo(c, rows, cells, c.Positions())
    ensures counter.rows == old(counter.rows) + Times(c.Positions() - vcap, KvbRows(c))
  {
    cells := cells0;
    var s0, n := 0, c.Positions();
    while s0 < n
      invariant s0 <= n && PassTwo(c, rows, cells, s0)
      invariant counter.rows == old(counter.rows) + Times(Beyond(s0, vcap), KvbRows(c))
    {
      var end := s0 + Min(BLOCK, n - s0);
      cells := ValuePassBlock(c, latent, kept, vcap, rows, cells, s0, end, counter);
      s0 := end;
    }
  }

  /** The budget, clamped to the positions there are. */
  function Clamp(vcap: int, n: nat): (v: nat)
    ensures v <= n && (0 <= vcap <= n ==> v == vcap)
    ensures (vcap < 0 ==> v == 0) && (vcap > n ==> v == n)
  {
    if vcap > n then n else if vcap < 0 then 0 else vcap
  }

  lemma {:induction false} CellsDone<F,
      D>(c: Call<F, D>, rows: seq<seq<seq<F>>>, cells: seq<seq<Cell<F, D>>>, t: nat, h: nat)
    requires c.Shaped() && PassTwo(c, rows, cells, c.Positions()) && t < c.tokens && h < c.heads
    ensures |cells[h]| == c.tokens && Finished(c, cells[h][t], t, h)
  {
    assert HeadValues(c, rows[h], cells[h], h, c.Positions());
    ValuesDone(c, rows[h][t], cells[h][t], t, h);
  }

  /** L1: each position rebuilt once a call, and a second time when its value rows were not kept. */
  method AttendL1<F(0), D>(c: Call<F, D>, latent: seq<seq<F>>, rope: seq<seq<F>>, budget: int, out: array2<Cell<F, D>>,
                           counter: Counter)
    requires c.Shaped() && Fits(c, out)
    requires LatentStored(c, latent, c.Positions()) && RopesStored(c, rope, c.Positions())
    modifies out, counter
    ensures AllFinished(c, out)
    ensures counter.rows == old(counter.rows) +
              Times(c.Positions() + (c.Positions() - Clamp(budget, c.Positions())), KvbRows(c))
  {
    var vcap := Clamp(budget, c.Positions());
    var rows, kept := ScorePass(c, latent, rope, vcap, counter);
    forall h: nat | h < c.heads
      ensures Kept(c, kept[h], h, vcap)
    {
      assert HeadScored(c, rows[h], kept[h], h, c.Positions(), vcap);
    }
    var cells;
    rows, cells := SoftmaxPass(c, rows, kept, vcap);
    cells := ValuePass(c, latent, kept, vcap, rows, cells, counter);
    TimesAdd(c.Positions(), c.Positions() - vcap, KvbRows(c));
    StoreCells(c, rows, cells, out);
  }

  method StoreCells<F, D>(c: Call<F, D>, ghost rows: seq<seq<seq<F>>>, cells: seq<seq<Cell<F, D>>>,
                          out: array2<Cell<F, D>>)
    requires c.Shaped() && Fits(c, out) && PassTwo(c, rows, cells, c.Positions())
    modifies out
    ensures AllFinished(c, out)
  {
    for t := 0 to c.tokens
      invariant forall u: nat, h: nat :: u < t && h < c.heads ==> Finished(c, out[u, h], u, h)
    {
      for h := 0 to c.heads
        invariant forall u: nat, k: nat :: u < t && k < c.heads ==> Finished(c, out[u, k], u, k)
        invariant forall k: nat :: k < h ==> Finished(c, out[t, k], t, k)
      {
        CellsDone(c, rows, cells, t, h);
        out[t, h] := cells[h][t];
      }
    }
  }

  // ------------------------------------------------------------------ the rebuild counts

  datatype Variant = E | EP | L0 | L1 | A

  /** kv_b applications per call, append included, as the benchmark states them. */
  function Rebuilds(v: Variant, tokens: nat, cached: nat, budget: int): int {
    match v
    case E => tokens
    case EP => tokens
    case L0 => tokens * (cached + 1) + tokens * (tokens - 1) / 2
    case L1 => cached + tokens + (cached + tokens - Clamp(budget, cached + tokens))
    case A => 0
  }

  ghost function StatedRebuilds<F, D>(v: Variant, c: Call<F, D>, budget: int): nat {
    if v == L0 then SeenByAll(c, c.tokens)
    else if v == L1 then c.Positions() + (c.Positions() - Clamp(budget, c.Positions()))
    else if v == A then 0 else c.tokens
  }

  /** Append in the variant's layout and attend. The rows of kv_b applied are the stated applications
      times the rows of the whole matrix. */
  method Attend<F(0), D>(v: Variant, c: Call<F, D>, kv: array<seq<seq<F>>>, latent: array<seq<F>>, rope: array<seq<F>>,
                         budget: int,
                         out: array2<Cell<F, D>>, counter: Counter)
    requires v != A && c.Shaped() && Fits(c, out)
    requires kv.Length >= c.Positions() && latent.Length >= c.Positions() && rope.Length >= c.Positions()
    requires latent != rope && (kv as object) != rope
    requires RopesStored(c, rope[..], c.cached)
    requires if v == E || v == EP then ExpandedStored(c, kv[..], c.cached) else LatentStored(c, latent[..], c.cached)
    modifies kv, latent, rope, out, counter
    ensures AllFinished(c, out)
    ensures Rebuilds(v, c.tokens, c.cached, budget) >= 0
    ensures counter.rows == old(counter.rows) + Rebuilds(v, c.tokens, c.cached, budget) * KvbRows(c)
  {
    TimesIsProduct(StatedRebuilds(v, c, budget), KvbRows(c));
    SeenByAllClosed(c, c.tokens);
    if v == E || v == EP {
      AppendExpanded(c, kv, rope, counter);
      if v == E {
        AttendE(c, kv[..], rope[..], out);
      } else {
        AttendEP(c, kv[..], rope[..], out);
      }
    } else {
      AppendLatent(c, latent, rope);
      if v == L0 {
        AttendL0(c, latent[..], rope[..], out, counter);
      } else {
        AttendL1(c, latent[..], rope[..], budget, out, counter);
      }
    }
  }
}
